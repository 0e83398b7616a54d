/** The invitation routes (src/routes/invitation.route.ts): create, list,
    get-by-token, accept, cancel and stats. The read-only routes are functions
    of the collection; the routes that write are methods on the database.
    Each validation chain is a function returning the first rejection, and
    the writing methods run it before touching the store. */
module InvitationRoutes {
  import opened Seqs
  import opened Text
  import opened Roles
  import opened Guards
  import opened InviteRules
  import opened EmailPattern
  import opened Users
  import opened Invitations
  import opened Store
  import opened Links

  /** The acceptance page for a token: the front end's `/invite/` path
      followed by the raw token. */
  function InvitationLink(frontendUrl: string, token: string): string {
    TokenLink(frontendUrl, "/invite/", token)
  }

  // ---------------------------------------------------------------------
  // POST /api/invitations

  datatype CreateOutcome =
    | CreateRejected(decision: Decision)
    | MissingEmailOrRole
    | InvalidEmailFormat
    | InvalidRole(availableRoles: seq<Role>)
    | RoleNotInvitable(message: string, invitableRoles: seq<Role>)
    | UserAlreadyExists
    | AlreadyInvited(existing: Invitation)
    | CreateFailed
    | Created(invitation: Invitation, link: string, emailSent: bool, message: string)
  {
    function Status(): int {
      match this
      case CreateRejected(d) => d.Status()
      case RoleNotInvitable(_, _) => 403
      case CreateFailed => 500
      case Created(_, _, _, _) => 201
      case _ => 400
    }
  }

  /** `requireAuth, requirePermission(Permission.INVITE_USERS)`. */
  const CreateGuards: seq<Guard> := [RequireAuth, RequirePermission(InviteUsers)]

  /** The query of the duplicate check: an unused, unexpired invitation for this address and role. */
  function DuplicateQuery(email: string, role: Role, now: int): Invitation -> bool {
    (x: Invitation) => x.email == email && x.role == role && IsPending(x, now)
  }

  /** The 403 message naming the roles the inviter may assign. */
  function InviteRefusal(inviter: Role): string {
    "You can only invite users with the following roles: " + Join(RoleNames(InvitableRoles(inviter)), ", ")
  }

  /** Create's checks before anything is written, in the route's order: the
      first one that fails gives the answer; `None` means all passed. */
  function CreateCheck(users: seq<User>, invs: seq<Invitation>, now: int,
                       session: Option<SessionUser>, email: string, role: string): (r: Option<CreateOutcome>)
    ensures r.Some? ==> r.value.Status() in {400, 401, 403}
    ensures r.None? ==> session.Some? && EmailMatches(email) && RoleFromName(role).Some?
  {
    AuthThenGuard(RequirePermission(InviteUsers), session);
    var d := RunGuards(CreateGuards, session);
    if !d.Allow? then Some(CreateRejected(d))
    else if email == "" || role == "" then Some(MissingEmailOrRole)
    else if !EmailMatches(email) then Some(InvalidEmailFormat)
    else if RoleFromName(role).None? then Some(InvalidRole(AllRoles))
    else if !CanInviteRole(session.value.role, RoleFromName(role).value) then
      Some(RoleNotInvitable(InviteRefusal(session.value.role), InvitableRoles(session.value.role)))
    else if FindUser(users, ByEmail, ToLower(email)).Some? then Some(UserAlreadyExists)
    else
      var existing := FindFirst(DuplicateQuery(ToLower(email), RoleFromName(role).value, now), invs);
      if existing.Some? then Some(AlreadyInvited(existing.value)) else None
  }

  /** Create's last check on its own: a pending invitation for the lower-cased
      address and the role is refused with the 400 "already exists", which
      carries it (CreateCheckDuplicate places it at the end of CreateCheck). */
  function DuplicateCheck(invs: seq<Invitation>, now: int, email: string, role: Role): (r: Option<CreateOutcome>)
    ensures r.Some? <==> exists x :: x in invs && DuplicateQuery(ToLower(email), role, now)(x)
    ensures r.Some? ==>
      r.value.AlreadyInvited? && r.value.Status() == 400 && r.value.existing in invs
      && DuplicateQuery(ToLower(email), role, now)(r.value.existing)
  {
    var existing := FindFirst(DuplicateQuery(ToLower(email), role, now), invs);
    if existing.Some? then Some(AlreadyInvited(existing.value)) else None
  }

  /** The checks all pass exactly when the caller may invite, both fields are
      given, the address matches the pattern, the role exists and the caller
      may assign it, no user has the address and no pending invitation has
      both address and role. */
  lemma CreateCheckPasses(users: seq<User>, invs: seq<Invitation>, now: int,
                          session: Option<SessionUser>, email: string, role: string)
    ensures CreateCheck(users, invs, now, session, email, role).None? <==>
      Check(RequirePermission(InviteUsers), session).Allow? && email != "" && role != ""
      && EmailMatches(email) && RoleFromName(role).Some?
      && CanInviteRole(session.value.role, RoleFromName(role).value)
      && (forall u :: u in users ==> u.email != ToLower(email))
      && (forall x :: x in invs ==> !DuplicateQuery(ToLower(email), RoleFromName(role).value, now)(x))
  {
    AuthThenGuard(RequirePermission(InviteUsers), session);
  }

  /** Which check answers, for every request: the guards, then missing fields,
      then the pattern, the role name, the allow-list, an existing user and a
      pending duplicate, in that order. */
  lemma CreateCheckOrder(users: seq<User>, invs: seq<Invitation>, now: int,
                         session: Option<SessionUser>, email: string, role: string)
    ensures session.None? ==> CreateCheck(users, invs, now, session, email, role) == Some(CreateRejected(Reject401))
    ensures !Check(RequirePermission(InviteUsers), session).Allow? ==>
      CreateCheck(users, invs, now, session, email, role) == Some(CreateRejected(Check(RequirePermission(InviteUsers), session)))
    ensures Check(RequirePermission(InviteUsers), session).Allow? ==>
      (CreateCheck(users, invs, now, session, email, role) == Some(MissingEmailOrRole) <==> email == "" || role == "")
    ensures Check(RequirePermission(InviteUsers), session).Allow? && email != "" && role != "" ==>
      (CreateCheck(users, invs, now, session, email, role) == Some(InvalidEmailFormat) <==> !EmailMatches(email))
    ensures Check(RequirePermission(InviteUsers), session).Allow? && email != "" && role != "" && EmailMatches(email) ==>
      (CreateCheck(users, invs, now, session, email, role) == Some(InvalidRole(AllRoles)) <==> RoleFromName(role).None?)
    ensures (Check(RequirePermission(InviteUsers), session).Allow? && email != "" && EmailMatches(email)
             && RoleFromName(role).Some? && !CanInviteRole(session.value.role, RoleFromName(role).value)) ==>
      CreateCheck(users, invs, now, session, email, role) ==
        Some(RoleNotInvitable(InviteRefusal(session.value.role), InvitableRoles(session.value.role)))
    ensures (Check(RequirePermission(InviteUsers), session).Allow? && email != "" && EmailMatches(email)
             && RoleFromName(role).Some? && CanInviteRole(session.value.role, RoleFromName(role).value)) ==>
      (CreateCheck(users, invs, now, session, email, role) == Some(UserAlreadyExists) <==>
        exists u :: u in users && u.email == ToLower(email))
  {
    AuthThenGuard(RequirePermission(InviteUsers), session);
    NoUserIsUnauthenticated(RequirePermission(InviteUsers));
  }

  /** The last step of the order: once every earlier check passes and no user
      has the address, the answer is the duplicate check's, so the request is
      refused exactly when a pending invitation has the same address and role,
      and then with the 400 that carries it. */
  lemma CreateCheckDuplicate(users: seq<User>, invs: seq<Invitation>, now: int,
                             session: Option<SessionUser>, email: string, role: string)
    requires Check(RequirePermission(InviteUsers), session).Allow? && email != "" && EmailMatches(email)
    requires RoleFromName(role).Some? && CanInviteRole(session.value.role, RoleFromName(role).value)
    requires forall u :: u in users ==> u.email != ToLower(email)
    ensures CreateCheck(users, invs, now, session, email, role) ==
      DuplicateCheck(invs, now, email, RoleFromName(role).value)
  {
    AuthThenGuard(RequirePermission(InviteUsers), session);
    assert RunGuards(CreateGuards, session).Allow?;
    assert role != "";
    assert FindUser(users, ByEmail, ToLower(email)).None?;
  }

  /** A refused role is never on the list the 403 offers, and the list is exactly
      what the inviter may assign. */
  lemma RefusalListsInvitableRoles(users: seq<User>, invs: seq<Invitation>, now: int,
                                   session: Option<SessionUser>, email: string, role: string)
    requires CreateCheck(users, invs, now, session, email, role).Some?
    requires CreateCheck(users, invs, now, session, email, role).value.RoleNotInvitable?
    ensures RoleFromName(role).Some?
    ensures RoleFromName(role).value !in CreateCheck(users, invs, now, session, email, role).value.invitableRoles
    ensures forall t :: t in CreateCheck(users, invs, now, session, email, role).value.invitableRoles <==>
      session.Some? && CanInviteRole(session.value.role, t)
  {
    AuthThenGuard(RequirePermission(InviteUsers), session);
  }

  /** The response message: whether the invitation mail went out, and if not, why. */
  function CreateMessage(emailEnabled: bool, delivery: Delivery): string {
    var detail :=
      if emailEnabled && delivery.NotDelivered? && delivery.error != "" then " (email failed: " + delivery.error + ")"
      else " (email not configured)";
    if emailEnabled && delivery.Delivered? then "Invitation created and email sent successfully"
    else "Invitation created successfully" + detail
  }

  /** A failed delivery whose error text is empty reads exactly like a disabled mail service. */
  lemma EmptyMailErrorReadsAsNotConfigured(d: Delivery)
    ensures CreateMessage(true, NotDelivered("")) == CreateMessage(false, d)
  {
  }

  /** The document Create saves, before the hooks (which leave it unchanged). */
  function CreatedDocument(id: nat, session: SessionUser, email: string, role: Role, token: string, now: int): Invitation {
    NewInvitation(id, email, role, token, session.id,
                  InviterDetails(session.name, session.email, session.role), now)
  }

  /** Saving the new document fails: a required inviter snapshot field is empty,
      or a unique index would be violated. */
  predicate SaveRefused(invs: seq<Invitation>, doc: Invitation) {
    doc.invitedByDetails.name == "" || doc.invitedByDetails.email == "" || SaveConflict(invs, doc)
  }

  /** The answer of `POST /api/invitations` for a request against the
      collections as they stand: the first failed check, else a refused save,
      else the new invitation with its link and the mail report. */
  function CreateResult(users: seq<User>, invs: seq<Invitation>, nextId: nat, now: int,
                        session: Option<SessionUser>, email: string, role: string,
                        token: string, frontendUrl: string, emailEnabled: bool, delivery: Delivery)
    : (r: CreateOutcome)
    ensures CreateCheck(users, invs, now, session, email, role).Some? ==>
      r == CreateCheck(users, invs, now, session, email, role).value
    ensures r.CreateFailed? <==>
      CreateCheck(users, invs, now, session, email, role).None?
      && SaveRefused(invs, CreatedDocument(nextId, session.value, email, RoleFromName(role).value, token, now))
    ensures CreateCheck(users, invs, now, session, email, role).None?
      && !SaveRefused(invs, CreatedDocument(nextId, session.value, email, RoleFromName(role).value, token, now))
      ==> r.Created?
    ensures r.Created? ==>
      CreateCheck(users, invs, now, session, email, role).None?
      && r.invitation == CreatedDocument(nextId, session.value, email, RoleFromName(role).value, token, now)
      && r.invitation.email == ToLower(email) && r.invitation.invitedBy == session.value.id
      && r.invitation.role == RoleFromName(role).value && r.invitation.token == token
      && !r.invitation.isUsed && r.invitation.expiresAt == now + InvitationLifetime
      && r.link == InvitationLink(frontendUrl, token)
      && r.emailSent == (emailEnabled && delivery.Delivered?)
      && r.message == CreateMessage(emailEnabled, delivery)
  {
    var check := CreateCheck(users, invs, now, session, email, role);
    if check.Some? then check.value
    else
      var doc := CreatedDocument(nextId, session.value, email, RoleFromName(role).value, token, now);
      if SaveRefused(invs, doc) then CreateFailed
      else
        StoredEmailFacts(email);
        Created(doc, InvitationLink(frontendUrl, token), emailEnabled && delivery.Delivered?,
                CreateMessage(emailEnabled, delivery))
  }

  /** `POST /api/invitations`. `token` is the 32 random bytes in hex the route
      generates; `emailEnabled` and `delivery` are what the mail service reports.
      Only a created invitation is written (see CreatedInvitationIsFound for
      what its token then finds). */
  method Create(db: Database, session: Option<SessionUser>, email: string, role: string,
                token: string, frontendUrl: string, emailEnabled: bool, delivery: Delivery)
    returns (out: CreateOutcome)
    requires db.Valid() && |token| == 64
    modifies db
    ensures db.Valid()
    ensures db.users == old(db.users) && db.resets == old(db.resets) && db.now == old(db.now)
    ensures db.nextUserId == old(db.nextUserId) && db.nextResetId == old(db.nextResetId)
    ensures out == CreateResult(old(db.users), old(db.invitations), old(db.nextInvitationId), db.now,
                                session, email, role, token, frontendUrl, emailEnabled, delivery)
    ensures db.invitations == if out.Created? then old(db.invitations) + [out.invitation] else old(db.invitations)
    ensures db.nextInvitationId == old(db.nextInvitationId) + if out.Created? then 1 else 0
  {
    var rejection := CreateCheck(db.users, db.invitations, db.now, session, email, role);
    if rejection.Some? {
      return rejection.value;
    }
    var r := RoleFromName(role).value;
    var draft := CreatedDocument(db.nextInvitationId, session.value, email, r, token, db.now);
    CreatedDocumentFacts(db.nextInvitationId, session.value, email, r, token, db.now);
    // The route supplies the token, so the token hook keeps it; `isUsed` is not set.
    var doc := PreSave(draft, token, false, db.now);
    var saved := SaveInvitation(db, doc);
    if !saved {
      return CreateFailed;
    }
    var sent := emailEnabled && delivery.Delivered?;
    out := Created(doc, InvitationLink(frontendUrl, token), sent, CreateMessage(emailEnabled, delivery));
  }

  /** Once created and appended, the invitation is what its token finds:
      no stored document shares the token and it is pending. */
  lemma CreatedInvitationIsFound(users: seq<User>, invs: seq<Invitation>, nextId: nat, now: int,
                                 session: Option<SessionUser>, email: string, role: string,
                                 token: string, frontendUrl: string, emailEnabled: bool, delivery: Delivery)
    requires InvitationsValid(invs, now, nextId) && |token| == 64
    requires CreateResult(users, invs, nextId, now, session, email, role, token, frontendUrl, emailEnabled, delivery).Created?
    ensures var x := CreateResult(users, invs, nextId, now, session, email, role, token, frontendUrl, emailEnabled, delivery).invitation;
      InvitationsValid(invs + [x], now, nextId + 1) && FindValidByToken(invs + [x], token, now) == Some(x)
  {
    var x := CreateResult(users, invs, nextId, now, session, email, role, token, frontendUrl, emailEnabled, delivery).invitation;
    CreatedDocumentFacts(nextId, session.value, email, RoleFromName(role).value, token, now);
    InsertResolvesToken(invs, now, nextId, x);
  }

  /** `save()` of the new document: refused when an inviter snapshot field is
      empty or a unique index would be violated, appended otherwise. */
  method SaveInvitation(db: Database, doc: Invitation) returns (saved: bool)
    requires db.Valid()
    requires doc.id == db.nextInvitationId && doc.createdAt == db.now && IsPending(doc, db.now)
    requires doc.invitedByDetails.name != "" && doc.invitedByDetails.email != "" ==> WellFormed(doc, db.now)
    modifies db
    ensures db.Valid()
    ensures db.users == old(db.users) && db.resets == old(db.resets) && db.now == old(db.now)
    ensures db.nextUserId == old(db.nextUserId) && db.nextResetId == old(db.nextResetId)
    ensures saved <==> !SaveRefused(old(db.invitations), doc)
    ensures db.invitations == if saved then old(db.invitations) + [doc] else old(db.invitations)
    ensures db.nextInvitationId == old(db.nextInvitationId) + if saved then 1 else 0
  {
    if SaveRefused(db.invitations, doc) {
      return false;
    }
    db.InsertInvitation(doc);
    saved := true;
  }

  /** The document Create builds passes through the save hooks unchanged (the
      route supplies the token, and `isUsed` is not set), is pending, stores
      the lower-cased address, and is well formed once the inviter's name and
      address are there. */
  lemma CreatedDocumentFacts(id: nat, user: SessionUser, email: string, r: Role, token: string, now: int)
    requires |token| == 64 && EmailMatches(email)
    ensures PreSave(CreatedDocument(id, user, email, r, token, now), token, false, now)
            == CreatedDocument(id, user, email, r, token, now)
    ensures var doc := CreatedDocument(id, user, email, r, token, now);
      doc.id == id && doc.createdAt == now && IsPending(doc, now)
      && doc.email == ToLower(email) && doc.invitedBy == user.id && doc.token == token
      && (user.name != "" && user.email != "" ==> WellFormed(doc, now))
  {
    StoredEmailFacts(email);
  }

  // ---------------------------------------------------------------------
  // GET /api/invitations

  datatype ListOutcome = ListRejected(decision: Decision) | Listed(invitations: seq<Invitation>, count: nat)

  /** Super admins see every invitation, everyone else only their own. */
  predicate InScope(session: SessionUser, x: Invitation) {
    session.role == SuperAdmin || x.invitedBy == session.id
  }

  function ListQuery(session: SessionUser, now: int): Invitation -> bool {
    (x: Invitation) => IsPending(x, now) && InScope(session, x)
  }

  /** `GET /api/invitations`: the caller's pending invitations, newest first. */
  function List(invs: seq<Invitation>, session: Option<SessionUser>, now: int): (r: ListOutcome)
    ensures r.ListRejected? <==> !Check(RequirePermission(ReadUser), session).Allow?
    ensures r.ListRejected? ==> r.decision == Check(RequirePermission(ReadUser), session)
    ensures r.Listed? ==> r.count == |r.invitations|
    ensures r.Listed? ==> forall x :: x in r.invitations ==>
      x in invs && !x.isUsed && !IsExpired(x, now) && x.expiresAt != now && InScope(session.value, x)
    ensures r.Listed? ==> forall x :: x in invs && IsPending(x, now) && InScope(session.value, x) ==>
      x in r.invitations
  {
    AuthThenGuard(RequirePermission(ReadUser), session);
    var d := RunGuards([RequireAuth, RequirePermission(ReadUser)], session);
    if !d.Allow? then ListRejected(d)
    else
      var found := Reverse(Filter(ListQuery(session.value, now), invs));
      Listed(found, |found|)
  }

  /** With the collection in insertion order (creation times never decrease),
      the list comes out sorted by `createdAt` descending. */
  lemma ListNewestFirst(invs: seq<Invitation>, session: Option<SessionUser>, now: int)
    requires Ascending(CreatedAt, invs)
    requires List(invs, session, now).Listed?
    ensures Descending(CreatedAt, List(invs, session, now).invitations)
  {
    AuthThenGuard(RequirePermission(ReadUser), session);
    var q := ListQuery(session.value, now);
    FilterAscending(CreatedAt, q, invs);
    ReverseAscending(CreatedAt, Filter(q, invs));
  }

  // ---------------------------------------------------------------------
  // GET /api/invitations/token/:token

  datatype FetchOutcome =
    | TokenMissing
    | FetchNotFound
    | InvitationFound(email: string, role: Role, invitedBy: InviterDetails, expiresAt: int, token: string)
  {
    function Status(): int {
      match this
      case TokenMissing => 400
      case FetchNotFound => 404
      case InvitationFound(_, _, _, _, _) => 200
    }
  }

  /** `GET /api/invitations/token/:token`: the details of a pending invitation. */
  function FetchByToken(invs: seq<Invitation>, token: string, now: int): (r: FetchOutcome)
    ensures r.TokenMissing? <==> token == ""
    ensures r.FetchNotFound? <==> token != "" && forall x :: x in invs ==> !(x.token == token && IsPending(x, now))
    ensures r.InvitationFound? ==> r.token == token
    ensures r.InvitationFound? ==>
      exists x :: x in invs && x.token == token && !x.isUsed && !IsExpired(x, now)
        && r.email == x.email && r.role == x.role && r.invitedBy == x.invitedByDetails && r.expiresAt == x.expiresAt
  {
    if token == "" then TokenMissing
    else
      var found := FindValidByToken(invs, token, now);
      if found.None? then FetchNotFound
      else InvitationFound(found.value.email, found.value.role, found.value.invitedByDetails,
                           found.value.expiresAt, found.value.token)
  }

  // ---------------------------------------------------------------------
  // POST /api/invitations/token/:token/accept

  datatype AcceptOutcome =
    | AcceptMissingFields
    | PasswordTooShort
    | InvitationNotFound
    | EmailTaken
    | UsernameTaken
    | AcceptFailed
    | Accepted(user: User)
  {
    function Status(): int {
      match this
      case InvitationNotFound => 404
      case AcceptFailed => 500
      case Accepted(_) => 201
      case _ => 400
    }
  }

  /** The route's minimum password length (the reset route asks for 8). */
  const AcceptMinPassword: nat := 6

  /** Accept's checks before anything is written, in the route's order: each
      400 is stated with the condition that selects it, so an earlier check wins. */
  function AcceptCheck(users: seq<User>, invs: seq<Invitation>, now: int,
                       token: string, username: string, password: string, name: string): (r: Option<AcceptOutcome>)
    ensures r.Some? ==> r.value.Status() in {400, 404}
    ensures r.None? <==>
      username != "" && password != "" && name != "" && |password| >= AcceptMinPassword
      && FindValidByToken(invs, token, now).Some?
      && (forall u :: u in users ==> u.email != FindValidByToken(invs, token, now).value.email)
      && (forall u :: u in users ==> u.username != Trim(username))
    ensures r == Some(InvitationNotFound) <==>
      username != "" && password != "" && name != "" && |password| >= AcceptMinPassword
      && FindValidByToken(invs, token, now).None?
    ensures r == Some(AcceptMissingFields) <==> username == "" || password == "" || name == ""
    ensures r == Some(PasswordTooShort) <==>
      username != "" && password != "" && name != "" && |password| < AcceptMinPassword
    ensures r == Some(EmailTaken) <==>
      username != "" && password != "" && name != "" && |password| >= AcceptMinPassword
      && FindValidByToken(invs, token, now).Some?
      && exists u :: u in users && u.email == FindValidByToken(invs, token, now).value.email
    ensures r == Some(UsernameTaken) <==>
      username != "" && password != "" && name != "" && |password| >= AcceptMinPassword
      && FindValidByToken(invs, token, now).Some?
      && (forall u :: u in users ==> u.email != FindValidByToken(invs, token, now).value.email)
      && exists u :: u in users && u.username == Trim(username)
    ensures r != Some(AcceptFailed) && !(r.Some? && r.value.Accepted?)
  {
    if username == "" || password == "" || name == "" then Some(AcceptMissingFields)
    else if |password| < AcceptMinPassword then Some(PasswordTooShort)
    else if FindValidByToken(invs, token, now).None? then Some(InvitationNotFound)
    else if FindUser(users, ByEmail, FindValidByToken(invs, token, now).value.email).Some? then Some(EmailTaken)
    else if FindUser(users, ByUsername, Trim(username)).Some? then Some(UsernameTaken)
    else None
  }

  /** The link page and the accept route resolve a token alike: for a complete
      request, accept answers 404 exactly when the page does. */
  lemma FetchAndAcceptAgree(users: seq<User>, invs: seq<Invitation>, now: int,
                            token: string, username: string, password: string, name: string)
    requires token != "" && username != "" && password != "" && name != "" && |password| >= AcceptMinPassword
    ensures FetchByToken(invs, token, now).FetchNotFound? <==>
      AcceptCheck(users, invs, now, token, username, password, name) == Some(InvitationNotFound)
  {
  }

  /** The account Accept creates: trimmed username and name, the invitation's
      address and role, active. */
  function NewMember(id: nat, username: string, password: string, name: string, inv: Invitation): (u: User)
    ensures u.email == inv.email && u.role == inv.role && u.isActive
    ensures u.username == Trim(username) && u.name == Trim(name) && u.password == password && u.id == id
  {
    User(id, Trim(username), inv.email, password, Trim(name), inv.role, true)
  }

  /** `POST /api/invitations/token/:token/accept`. The new user and the used
      invitation are two separate writes; `markUsedSaved` is whether the second
      one succeeds. */
  method Accept(db: Database, token: string, username: string, password: string, name: string,
                markUsedSaved: bool)
    returns (out: AcceptOutcome)
    requires db.Valid()
    modifies db
    ensures db.Valid()
    ensures db.resets == old(db.resets) && db.now == old(db.now)
    ensures db.nextInvitationId == old(db.nextInvitationId) && db.nextResetId == old(db.nextResetId)
    ensures AcceptCheck(old(db.users), old(db.invitations), db.now, token, username, password, name).Some? ==>
      out == AcceptCheck(old(db.users), old(db.invitations), db.now, token, username, password, name).value
      && db.users == old(db.users) && db.invitations == old(db.invitations)
      && db.nextUserId == old(db.nextUserId)
    ensures AcceptCheck(old(db.users), old(db.invitations), db.now, token, username, password, name).None? ==>
      var k := ValidTokenIndex(old(db.invitations), token, db.now).value;
      db.users == old(db.users) + [NewMember(old(db.nextUserId), username, password, name, old(db.invitations)[k])]
      && db.nextUserId == old(db.nextUserId) + 1
      && (out.Accepted? <==> markUsedSaved)
      && (out.Accepted? ==>
            out.user == db.users[|db.users| - 1]
            && db.invitations == old(db.invitations)[k := MarkUsed(old(db.invitations)[k], db.now)])
      && (out.AcceptFailed? <==> !markUsedSaved)
      && (out.AcceptFailed? ==> db.invitations == old(db.invitations))
    ensures out.Accepted? ==> FindValidByToken(db.invitations, token, db.now).None?
    ensures UsersUnique(old(db.users)) ==> UsersUnique(db.users)
  {
    var rejection := AcceptCheck(db.users, db.invitations, db.now, token, username, password, name);
    if rejection.Some? {
      return rejection.value;
    }
    var k := ValidTokenIndex(db.invitations, token, db.now).value;
    var inv := db.invitations[k];
    var member := NewMember(db.nextUserId, username, password, name, inv);
    db.InsertUser(member);
    if !markUsedSaved {
      return AcceptFailed;
    }
    db.MarkInvitationUsed(k);
    out := Accepted(member);
  }

  // ---------------------------------------------------------------------
  // DELETE /api/invitations/:id

  datatype CancelOutcome = CancelRejected(decision: Decision) | MalformedId | NotFound | NotCreator | Cancelled
  {
    function Status(): int {
      match this
      case CancelRejected(d) => d.Status()
      case MalformedId => 500
      case NotFound => 404
      case NotCreator => 403
      case Cancelled => 200
    }
  }

  /** Cancel's checks: the guards, an id that is a well-formed document id
      (`None` for a path segment `findById` cannot cast, which makes it throw),
      an invitation with this id, then ownership. */
  function CancelCheck(invs: seq<Invitation>, session: Option<SessionUser>, id: Option<nat>): (r: Option<CancelOutcome>)
    requires Pairwise(InvitationIdsDiffer, invs)
    ensures r.None? <==>
      Check(RequirePermission(DeleteUser), session).Allow? && id.Some?
      && exists x :: x in invs && x.id == id.value && InScope(session.value, x)
    ensures r == Some(MalformedId) <==> Check(RequirePermission(DeleteUser), session).Allow? && id.None?
    ensures r == Some(NotFound) <==>
      Check(RequirePermission(DeleteUser), session).Allow? && id.Some? && forall x :: x in invs ==> x.id != id.value
    ensures r == Some(NotCreator) <==>
      Check(RequirePermission(DeleteUser), session).Allow? && id.Some?
      && (exists x :: x in invs && x.id == id.value)
      && forall x :: x in invs && x.id == id.value ==> !InScope(session.value, x)
    ensures !Check(RequirePermission(DeleteUser), session).Allow? ==>
      r == Some(CancelRejected(Check(RequirePermission(DeleteUser), session)))
    ensures r.Some? ==> !r.value.Cancelled?
  {
    AuthThenGuard(RequirePermission(DeleteUser), session);
    var d := RunGuards([RequireAuth, RequirePermission(DeleteUser)], session);
    if !d.Allow? then Some(CancelRejected(d))
    else if id.None? then Some(MalformedId)
    else
      var found := FindFirst((x: Invitation) => x.id == id.value, invs);
      if found.None? then Some(NotFound)
      else
        IdNamesOneDocument(invs, found.value);
        if !InScope(session.value, found.value) then Some(NotCreator)
      else None
  }

  /** `DELETE /api/invitations/:id`: `findByIdAndDelete` after the checks. */
  method Cancel(db: Database, session: Option<SessionUser>, id: Option<nat>) returns (out: CancelOutcome)
    requires db.Valid()
    modifies db
    ensures db.Valid()
    ensures db.users == old(db.users) && db.resets == old(db.resets) && db.now == old(db.now)
    ensures db.nextUserId == old(db.nextUserId) && db.nextInvitationId == old(db.nextInvitationId)
    ensures db.nextResetId == old(db.nextResetId)
    ensures CancelCheck(old(db.invitations), session, id).Some? ==>
      out == CancelCheck(old(db.invitations), session, id).value && db.invitations == old(db.invitations)
    ensures CancelCheck(old(db.invitations), session, id).None? ==>
      out == Cancelled && db.invitations == RemoveById(old(db.invitations), id.value)
  {
    var rejection := CancelCheck(db.invitations, session, id);
    if rejection.Some? {
      return rejection.value;
    }
    db.DeleteInvitation(id.value);
    out := Cancelled;
  }

  // ---------------------------------------------------------------------
  // GET /api/invitations/stats

  datatype StatsOutcome = StatsRejected(decision: Decision) | Counts(total: nat, pending: nat, used: nat, expired: nat)

  function PendingQuery(now: int): Invitation -> bool { (x: Invitation) => IsPending(x, now) }
  function UsedQuery(): Invitation -> bool { (x: Invitation) => x.isUsed }
  /** `{ isUsed: false, expiresAt: { $lt: now } }`. */
  function ExpiredQuery(now: int): Invitation -> bool { (x: Invitation) => !x.isUsed && x.expiresAt < now }
  /** Unused invitations expiring at exactly `now`: counted by none of the three queries. */
  function AtExpiryQuery(now: int): Invitation -> bool { (x: Invitation) => !x.isUsed && x.expiresAt == now }

  /** The base query: everything for a super admin, otherwise the caller's own invitations. */
  function Scoped(invs: seq<Invitation>, session: SessionUser): seq<Invitation> {
    Filter((x: Invitation) => InScope(session, x), invs)
  }

  /** `GET /api/invitations/stats`. */
  function Stats(invs: seq<Invitation>, session: Option<SessionUser>, now: int): (r: StatsOutcome)
    ensures r.StatsRejected? <==> !Check(RequirePermission(ReadUser), session).Allow?
    ensures r.StatsRejected? ==> r.decision == Check(RequirePermission(ReadUser), session)
    ensures r.Counts? ==> r.total == |Scoped(invs, session.value)|
    ensures r.Counts? ==> r.pending == Count(PendingQuery(now), Scoped(invs, session.value))
    ensures r.Counts? ==> r.used == Count(UsedQuery(), Scoped(invs, session.value))
    ensures r.Counts? ==> r.expired == Count(ExpiredQuery(now), Scoped(invs, session.value))
    ensures r.Counts? ==>
      r.pending + r.used + r.expired + Count(AtExpiryQuery(now), Scoped(invs, session.value)) == r.total
    ensures r.Counts? ==> r.pending + r.used + r.expired <= r.total
  {
    AuthThenGuard(RequirePermission(ReadUser), session);
    var d := RunGuards([RequireAuth, RequirePermission(ReadUser)], session);
    if !d.Allow? then StatsRejected(d)
    else
      var scoped := Scoped(invs, session.value);
      PartitionCounts(PendingQuery(now), UsedQuery(), ExpiredQuery(now), AtExpiryQuery(now), scoped);
      Counts(|scoped|, Count(PendingQuery(now), scoped), Count(UsedQuery(), scoped), Count(ExpiredQuery(now), scoped))
  }
}
