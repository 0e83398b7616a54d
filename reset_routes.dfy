/** The password-reset routes (src/routes/password-reset.route.ts):
    forgot-password and reset-password write to the store and are methods on
    the database; verify-reset-token only reads and is a function. The raw
    token `crypto.randomBytes` produces is a parameter, and so is the outcome
    of handing the reset mail to the mail service. */
module ResetRoutes {
  import opened Seqs
  import opened Text
  import opened EmailPattern
  import opened Users
  import opened PasswordResets
  import opened Store
  import opened Links

  // ---------------------------------------------------------------------
  // POST /api/auth/forgot-password

  datatype ForgotOutcome =
    | EmailRequired
    | InvalidEmail
    | TooSoon
    | ForgotFailed
    | MailFailed
    | LinkRequested
  {
    function Status(): int {
      match this
      case EmailRequired => 400
      case InvalidEmail => 400
      case TooSoon => 429
      case ForgotFailed => 500
      case MailFailed => 500
      case LinkRequested => 200
    }
  }

  /** The one answer the route gives whether or not the account exists. */
  const GenericMessage: string :=
    "If an account with that email exists, you will receive a password reset link shortly"

  /** The account `User.findOne({ email: email.toLowerCase() })` returns, when it is active. */
  function ActiveAccount(users: seq<User>, email: string): (r: Option<User>)
    ensures r.Some? ==> r.value in users && r.value.email == ToLower(email) && r.value.isActive
    ensures r.None? && UsersUnique(users) ==> forall u :: u in users && u.email == ToLower(email) ==> !u.isActive
  {
    var found := FindUser(users, ByEmail, ToLower(email));
    if found.Some? && found.value.isActive then found
    else
      ActiveAccountAbsent(users, email);
      None
  }

  lemma ActiveAccountAbsent(users: seq<User>, email: string)
    requires FindUser(users, ByEmail, ToLower(email)).None? || !FindUser(users, ByEmail, ToLower(email)).value.isActive
    ensures UsersUnique(users) ==> forall u :: u in users && u.email == ToLower(email) ==> !u.isActive
  {
    if UsersUnique(users) {
      forall u | u in users && u.email == ToLower(email) ensures !u.isActive {
        EmailNamesOneUser(users, u, FindUser(users, ByEmail, ToLower(email)).value);
      }
    }
  }

  /** The user's record the route looks at: the first unused, unexpired one. */
  function PendingIndex(resets: seq<ResetRecord>, userId: nat, now: int): Option<nat> {
    FirstIndex(ActiveQuery(userId, now), resets)
  }

  /** That record was created less than two minutes ago. */
  predicate Throttled(resets: seq<ResetRecord>, userId: nat, now: int) {
    var k := PendingIndex(resets, userId, now);
    k.Some? && now - resets[k.value].createdAt < ResendWait
  }

  /** The collection after that record, if any, is marked used. */
  function Supersede(resets: seq<ResetRecord>, userId: nat, now: int): (r: seq<ResetRecord>)
    ensures |r| == |resets|
    ensures forall i :: 0 <= i < |r| && !ActiveQuery(userId, now)(resets[i]) ==> r[i] == resets[i]
  {
    var k := PendingIndex(resets, userId, now);
    if k.None? then resets else resets[k.value := MarkResetUsed(resets[k.value], now)]
  }

  /** Superseding leaves the user with no redeemable record. */
  lemma SupersedeDeactivates(resets: seq<ResetRecord>, now: int, nextId: nat, userId: nat)
    requires ResetsValid(resets, now, nextId)
    ensures forall x :: x in Supersede(resets, userId, now) ==> !ActiveQuery(userId, now)(x)
    ensures ResetsValid(Supersede(resets, userId, now), now, nextId)
  {
    var k := PendingIndex(resets, userId, now);
    if k.Some? {
      SupersedeLeavesNoneActive(resets, now, nextId, userId, k.value);
      MarkResetUsedKeepsValid(resets, now, nextId, k.value);
    }
  }

  /** The record the route saves for a raw token: its digest, one hour of validity. */
  function FreshReset(id: nat, user: User, raw: string, now: int): (r: ResetRecord)
    ensures r.token == Hash(raw) && r.userId == user.id && r.email == ToLower(user.email)
    ensures IsActive(r, now) && r.expiresAt == now + ResetLifetime && ResetWellFormed(r, now)
  {
    NewReset(id, user.id, user.email, Hash(raw), now + ResetLifetime, now)
  }

  /** The link the reset mail carries: the front end's reset page with the raw
      token as its `token` query parameter. Only the token's digest is stored. */
  function ResetLink(frontendUrl: string, raw: string): string {
    TokenLink(frontendUrl, "/reset-password?token=", raw)
  }

  /** The part of forgot-password that runs for an active account: the
      two-minute throttle, superseding the pending record, saving the new one,
      and deleting it again when the mail cannot be sent. */
  method IssueReset(db: Database, user: User, raw: string, delivery: Delivery) returns (out: ForgotOutcome)
    requires db.Valid()
    modifies db
    ensures db.Valid()
    ensures db.users == old(db.users) && db.invitations == old(db.invitations) && db.now == old(db.now)
    ensures db.nextUserId == old(db.nextUserId) && db.nextInvitationId == old(db.nextInvitationId)
    ensures out != EmailRequired && out != InvalidEmail
    ensures out == TooSoon <==> Throttled(old(db.resets), user.id, db.now)
    ensures out == TooSoon ==> db.resets == old(db.resets)
    ensures !Throttled(old(db.resets), user.id, db.now) ==>
      var marked := Supersede(old(db.resets), user.id, db.now);
      (out == ForgotFailed <==> TokenTaken(marked, Hash(raw)))
      && (out == MailFailed <==> !TokenTaken(marked, Hash(raw)) && delivery.NotDelivered?)
      && (out == ForgotFailed || out == MailFailed ==> db.resets == marked)
      && (out == LinkRequested ==> db.resets == marked + [FreshReset(old(db.nextResetId), user, raw, db.now)])
    ensures out == LinkRequested ==>
      forall x :: x in db.resets && ActiveQuery(user.id, db.now)(x) ==> x.token == Hash(raw)
    ensures out == LinkRequested ==>
      Redeemable(db.resets, raw, db.now) == Some(FreshReset(old(db.nextResetId), user, raw, db.now))
  {
    var k := PendingIndex(db.resets, user.id, db.now);
    SupersedeDeactivates(db.resets, db.now, db.nextResetId, user.id);
    if k.Some? {
      if db.now - db.resets[k.value].createdAt < ResendWait {
        return TooSoon;
      }
      db.MarkResetUsedAt(k.value);
    }
    out := StoreReset(db, user, raw, delivery);
  }

  /** The save step of forgot-password, once the user has no redeemable record:
      the new record is saved, and deleted again when the mail cannot be sent. */
  method StoreReset(db: Database, user: User, raw: string, delivery: Delivery) returns (out: ForgotOutcome)
    requires db.Valid()
    requires forall x :: x in db.resets ==> !ActiveQuery(user.id, db.now)(x)
    modifies db
    ensures db.Valid()
    ensures db.users == old(db.users) && db.invitations == old(db.invitations) && db.now == old(db.now)
    ensures db.nextUserId == old(db.nextUserId) && db.nextInvitationId == old(db.nextInvitationId)
    ensures out == ForgotFailed || out == MailFailed || out == LinkRequested
    ensures out == ForgotFailed <==> TokenTaken(old(db.resets), Hash(raw))
    ensures out == MailFailed <==> !TokenTaken(old(db.resets), Hash(raw)) && delivery.NotDelivered?
    ensures out != LinkRequested ==> db.resets == old(db.resets)
    ensures out == LinkRequested ==>
      db.resets == old(db.resets) + [FreshReset(old(db.nextResetId), user, raw, db.now)]
      && Redeemable(db.resets, raw, db.now) == Some(FreshReset(old(db.nextResetId), user, raw, db.now))
  {
    var rec := FreshReset(db.nextResetId, user, raw, db.now);
    if TokenTaken(db.resets, rec.token) {
      return ForgotFailed;
    }
    ghost var before := db.resets;
    ghost var beforeNext := db.nextResetId;
    db.InsertReset(rec);
    if delivery.NotDelivered? {
      RemoveInsertedReset(before, db.now, beforeNext, rec);
      db.DeleteReset(rec.id);
      return MailFailed;
    }
    FindFirstAppend(DigestQuery(Hash(raw), db.now), before, rec);
    out := LinkRequested;
  }

  /** `POST /api/auth/forgot-password`. `raw` is the fresh random token;
      `delivery` is what sending the reset mail reports. A missing or inactive
      account gets the same answer as a successful request, and nothing is written. */
  method ForgotPassword(db: Database, email: string, raw: string, delivery: Delivery)
    returns (out: ForgotOutcome)
    requires db.Valid()
    modifies db
    ensures db.Valid()
    ensures db.users == old(db.users) && db.invitations == old(db.invitations) && db.now == old(db.now)
    ensures db.nextUserId == old(db.nextUserId) && db.nextInvitationId == old(db.nextInvitationId)
    ensures out == EmailRequired <==> email == ""
    ensures out == InvalidEmail <==> email != "" && !EmailMatches(email)
    ensures (email == "" || !EmailMatches(email) || ActiveAccount(old(db.users), email).None?) ==>
      db.resets == old(db.resets)
    ensures email != "" && EmailMatches(email) && ActiveAccount(old(db.users), email).None? ==>
      out == LinkRequested
    ensures out == TooSoon ==>
      ActiveAccount(old(db.users), email).Some?
      && Throttled(old(db.resets), ActiveAccount(old(db.users), email).value.id, db.now)
      && db.resets == old(db.resets)
    ensures out.Status() == 500 ==> ActiveAccount(old(db.users), email).Some?
    ensures email != "" && EmailMatches(email) && ActiveAccount(old(db.users), email).Some? ==>
      var user := ActiveAccount(old(db.users), email).value;
      (out == TooSoon <==> Throttled(old(db.resets), user.id, db.now))
      && (!Throttled(old(db.resets), user.id, db.now) ==>
            var marked := Supersede(old(db.resets), user.id, db.now);
            (out == ForgotFailed <==> TokenTaken(marked, Hash(raw)))
            && (out == MailFailed <==> !TokenTaken(marked, Hash(raw)) && delivery.NotDelivered?)
            && (out == ForgotFailed || out == MailFailed ==> db.resets == marked)
            && (out == LinkRequested ==> db.resets == marked + [FreshReset(old(db.nextResetId), user, raw, db.now)]))
    ensures email != "" && EmailMatches(email) && ActiveAccount(old(db.users), email).Some? && out == LinkRequested ==>
      var user := ActiveAccount(old(db.users), email).value;
      (forall x :: x in db.resets && ActiveQuery(user.id, db.now)(x) ==> x.token == Hash(raw))
      && Redeemable(db.resets, raw, db.now) == Some(FreshReset(old(db.nextResetId), user, raw, db.now))
    ensures out == LinkRequested && db.resets != old(db.resets) ==>
      ActiveAccount(old(db.users), email).Some?
      && db.resets == Supersede(old(db.resets), ActiveAccount(old(db.users), email).value.id, db.now)
           + [FreshReset(old(db.nextResetId), ActiveAccount(old(db.users), email).value, raw, db.now)]
  {
    if email == "" {
      return EmailRequired;
    }
    if !EmailMatches(email) {
      return InvalidEmail;
    }
    var account := ActiveAccount(db.users, email);
    if account.None? {
      return LinkRequested;
    }
    out := IssueReset(db, account.value, raw, delivery);
  }

  // ---------------------------------------------------------------------
  // POST /api/auth/reset-password

  datatype ResetOutcome =
    | ResetMissingFields
    | ResetPasswordTooShort
    | InvalidResetToken
    | AccountUnavailable
    | PasswordChanged
  {
    function Status(): int {
      if PasswordChanged? then 200 else 400
    }
  }

  /** The route's minimum password length (the accept route asks for 6). */
  const ResetMinPassword: nat := 8

  /** The user `findById` returns exists and is active. */
  predicate AccountActive(users: seq<User>, id: nat) {
    var k := UserIndex(users, id);
    k.Some? && users[k.value].isActive
  }

  /** The record `findOne({ token: hash, isUsed: false, expiresAt: { $gt: now } })` returns. */
  function Redeemable(resets: seq<ResetRecord>, token: string, now: int): (r: Option<ResetRecord>)
    ensures r.Some? ==> r.value in resets && r.value.token == Hash(token) && IsActive(r.value, now)
    ensures r.None? <==> forall x :: x in resets ==> !DigestQuery(Hash(token), now)(x)
  {
    FindFirst(DigestQuery(Hash(token), now), resets)
  }

  /** Reset's checks before anything is written, in the route's order. */
  function ResetCheck(users: seq<User>, resets: seq<ResetRecord>, now: int, token: string, password: string)
    : (r: Option<ResetOutcome>)
    ensures r.Some? ==> r.value.Status() == 400
    ensures r.None? ==> token != "" && |password| >= ResetMinPassword
    ensures r.None? <==>
      token != "" && password != "" && |password| >= ResetMinPassword
      && Redeemable(resets, token, now).Some? && AccountActive(users, Redeemable(resets, token, now).value.userId)
    ensures r == Some(InvalidResetToken) <==>
      token != "" && password != "" && |password| >= ResetMinPassword && Redeemable(resets, token, now).None?
    ensures r == Some(ResetMissingFields) <==> token == "" || password == ""
    ensures r == Some(ResetPasswordTooShort) <==> token != "" && password != "" && |password| < ResetMinPassword
    ensures r == Some(AccountUnavailable) <==>
      token != "" && password != "" && |password| >= ResetMinPassword
      && Redeemable(resets, token, now).Some? && !AccountActive(users, Redeemable(resets, token, now).value.userId)
    ensures r != Some(PasswordChanged)
  {
    if token == "" || password == "" then Some(ResetMissingFields)
    else if |password| < ResetMinPassword then Some(ResetPasswordTooShort)
    else if Redeemable(resets, token, now).None? then Some(InvalidResetToken)
    else if !AccountActive(users, Redeemable(resets, token, now).value.userId) then Some(AccountUnavailable)
    else None
  }

  /** `POST /api/auth/reset-password`. */
  method ResetPassword(db: Database, token: string, password: string) returns (out: ResetOutcome)
    requires db.Valid()
    modifies db
    ensures db.Valid()
    ensures db.invitations == old(db.invitations) && db.now == old(db.now)
    ensures db.nextUserId == old(db.nextUserId) && db.nextInvitationId == old(db.nextInvitationId)
    ensures db.nextResetId == old(db.nextResetId)
    ensures ResetCheck(old(db.users), old(db.resets), db.now, token, password).Some? ==>
      out == ResetCheck(old(db.users), old(db.resets), db.now, token, password).value
      && db.users == old(db.users) && db.resets == old(db.resets)
    ensures ResetCheck(old(db.users), old(db.resets), db.now, token, password).None? ==>
      var rec := Redeemable(old(db.resets), token, db.now).value;
      var k := UserIndex(old(db.users), rec.userId).value;
      out == PasswordChanged
      && db.users == old(db.users)[k := old(db.users)[k].(password := password)]
      && db.resets == RetireUnused(old(db.resets), rec.userId, db.now)
    ensures out == PasswordChanged ==> Redeemable(db.resets, token, db.now).None?
  {
    var rejection := ResetCheck(db.users, db.resets, db.now, token, password);
    if rejection.Some? {
      return rejection.value;
    }
    var j := FirstIndex(DigestQuery(Hash(token), db.now), db.resets).value;
    var rec := db.resets[j];
    var k := UserIndex(db.users, rec.userId).value;
    db.SetPassword(k, password);
    MarkThenRetire(db.resets, j, db.now);
    RetireUnusedConsumesToken(db.resets, db.now, db.nextResetId, j);
    db.MarkResetUsedAt(j);
    db.RetireUserResets(rec.userId);
    out := PasswordChanged;
  }

  // ---------------------------------------------------------------------
  // GET /api/auth/verify-reset-token/:token

  datatype VerifyOutcome =
    | VerifyTokenMissing
    | VerifyInvalid
    | VerifyAccountUnavailable
    | TokenValid(email: string, expiresAt: int)
  {
    function Status(): int {
      if TokenValid? then 200 else 400
    }
  }

  /** `GET /api/auth/verify-reset-token/:token`: reads, never writes. */
  function VerifyResetToken(users: seq<User>, resets: seq<ResetRecord>, token: string, now: int): (r: VerifyOutcome)
    ensures r == VerifyTokenMissing <==> token == ""
    ensures r == VerifyInvalid <==> token != "" && forall x :: x in resets ==> !DigestQuery(Hash(token), now)(x)
    ensures r.TokenValid? ==>
      exists x :: x in resets && x.token == Hash(token) && IsActive(x, now) && AccountActive(users, x.userId)
        && r.email == x.email && r.expiresAt == x.expiresAt
  {
    if token == "" then VerifyTokenMissing
    else
      var found := Redeemable(resets, token, now);
      if found.None? then VerifyInvalid
      else if !AccountActive(users, found.value.userId) then VerifyAccountUnavailable
      else TokenValid(found.value.email, found.value.expiresAt)
  }

  /** The check page and the reset route judge a token alike: for an acceptable
      password, the page reports it valid exactly when the reset would go through. */
  lemma VerifyAgreesWithReset(users: seq<User>, resets: seq<ResetRecord>, now: int, token: string, password: string)
    requires password != "" && |password| >= ResetMinPassword
    ensures VerifyResetToken(users, resets, token, now).TokenValid? <==> ResetCheck(users, resets, now, token, password).None?
    ensures VerifyResetToken(users, resets, token, now) == VerifyInvalid <==>
      ResetCheck(users, resets, now, token, password) == Some(InvalidResetToken)
  {
  }
}
