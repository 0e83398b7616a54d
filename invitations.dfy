/** Invitation documents (src/models/Invitation.ts): the record, its defaults,
    the two pre-save hooks, the unique indexes as predicates over the
    collection, and the model's query methods as filters over it. Times are
    milliseconds since the epoch; `now` is the instant of the request. */
module Invitations {
  import opened Seqs
  import opened Text
  import opened Roles
  import opened EmailPattern

  /** `invitedByDetails`: a snapshot of the inviter taken at creation. */
  datatype InviterDetails = InviterDetails(name: string, email: string, role: Role)

  datatype Invitation = Invitation(
    id: nat, email: string, role: Role, token: string,
    invitedBy: nat, invitedByDetails: InviterDetails,
    expiresAt: int, isUsed: bool, usedAt: Option<int>,
    createdAt: int, updatedAt: int)

  const DayMs: int := 24 * 60 * 60 * 1000

  /** The default of `expiresAt`: seven days after the document is built. */
  const InvitationLifetime: int := 7 * DayMs

  /** `cleanupExpired` also removes used invitations whose `usedAt` is older than this. */
  const UsedRetention: int := 30 * DayMs

  /** What the `trim` and `lowercase` options of the `email` path store. */
  function StoredEmail(email: string): (e: string)
    ensures IsLowerCase(e)
    ensures EmailMatches(email) ==> e == ToLower(email) && EmailMatches(e)
  {
    StoredEmailFacts(email);
    Trim(ToLower(email))
  }

  lemma StoredEmailFacts(email: string)
    ensures IsLowerCase(Trim(ToLower(email)))
    ensures EmailMatches(email) ==> Trim(ToLower(email)) == ToLower(email) && EmailMatches(ToLower(email))
  {
    ToLowerIsLowerCase(email);
    if EmailMatches(email) {
      LowerCaseKeepsMatch(email);
    }
    TrimLowerCase(ToLower(email));
  }

  lemma TrimLowerCase(s: string)
    requires IsLowerCase(s)
    ensures IsLowerCase(Trim(s))
  {
    var u := TrimStart(s);
    LowerCaseSlice(s, |s| - |u|, |s|);
    var t := TrimEnd(u);
    LowerCaseSlice(u, 0, |t|);
  }

  /** `new Invitation({...})`: the given fields, `isUsed` defaulting to false,
      no `usedAt`, `expiresAt` defaulting to seven days ahead and the
      timestamps of the first save. */
  function NewInvitation(
    id: nat, email: string, role: Role, token: string,
    invitedBy: nat, details: InviterDetails, now: int): (x: Invitation)
    ensures x.email == StoredEmail(email) && x.role == role && x.token == token
    ensures x.invitedBy == invitedBy && x.invitedByDetails == details && x.id == id
    ensures !x.isUsed && x.usedAt.None?
    ensures x.createdAt == x.updatedAt == now && x.expiresAt == now + InvitationLifetime
  {
    Invitation(id, StoredEmail(email), role, token, invitedBy, details,
               now + InvitationLifetime, false, None, now, now)
  }

  /** The two pre-save hooks in registration order: a document without a token
      gets `generated`; a document whose `isUsed` was modified to true and has
      no `usedAt` is stamped with the save instant. */
  function PreSave(doc: Invitation, generated: string, isUsedModified: bool, now: int): (r: Invitation)
    ensures doc.token != "" ==> r.token == doc.token
    ensures doc.token == "" ==> r.token == generated
    ensures doc.usedAt.Some? ==> r.usedAt == doc.usedAt
    ensures isUsedModified && doc.isUsed ==> r.usedAt.Some?
    ensures r.usedAt != doc.usedAt ==> r.usedAt == Some(now) && isUsedModified && doc.isUsed
    ensures r.(token := doc.token, usedAt := doc.usedAt) == doc
  {
    var t := if doc.token == "" then doc.(token := generated) else doc;
    if isUsedModified && t.isUsed && t.usedAt.None? then t.(usedAt := Some(now)) else t
  }

  /** `isExpired`: the current instant is past `expiresAt`. */
  predicate IsExpired(x: Invitation, now: int) {
    now > x.expiresAt
  }

  /** The query `{ isUsed: false, expiresAt: { $gt: now } }` shared by the lookups. */
  predicate IsPending(x: Invitation, now: int) {
    !x.isUsed && x.expiresAt > now
  }

  function TokenQuery(token: string, now: int): Invitation -> bool {
    (x: Invitation) => x.token == token && IsPending(x, now)
  }

  /** The position of the document `findValidByToken` returns. */
  function ValidTokenIndex(invs: seq<Invitation>, token: string, now: int): (r: Option<nat>)
    ensures r.Some? ==> r.value < |invs| && invs[r.value].token == token && IsPending(invs[r.value], now)
    ensures r.None? <==> forall x :: x in invs ==> !(x.token == token && IsPending(x, now))
  {
    FirstIndex(TokenQuery(token, now), invs)
  }

  /** `findValidByToken`: an unused invitation with this token that has not expired. */
  function FindValidByToken(invs: seq<Invitation>, token: string, now: int): (r: Option<Invitation>)
    ensures r.Some? ==> r.value in invs && r.value.token == token
    ensures r.Some? ==> !r.value.isUsed && !IsExpired(r.value, now)
    ensures r.None? <==> forall x :: x in invs ==> !(x.token == token && IsPending(x, now))
  {
    FindFirst(TokenQuery(token, now), invs)
  }

  /** `findPendingByEmail`: the unused, unexpired invitations for the lower-cased address. */
  function FindPendingByEmail(invs: seq<Invitation>, email: string, now: int): (r: seq<Invitation>)
    ensures forall x :: x in r ==> x in invs && x.email == ToLower(email)
    ensures forall x :: x in r ==> !x.isUsed && !IsExpired(x, now)
    ensures forall x :: x in invs && x.email == ToLower(email) && IsPending(x, now) ==> x in r
  {
    Filter((x: Invitation) => x.email == ToLower(email) && IsPending(x, now), invs)
  }

  /** The `$or` of `cleanupExpired`: expired, or used more than thirty days ago. */
  predicate Reclaimable(x: Invitation, now: int) {
    x.expiresAt < now || (x.isUsed && x.usedAt.Some? && x.usedAt.value < now - UsedRetention)
  }

  /** The collection after `cleanupExpired`'s `deleteMany`. */
  function CleanupExpired(invs: seq<Invitation>, now: int): (r: seq<Invitation>)
    ensures forall x :: x in r ==> x in invs && !Reclaimable(x, now)
    ensures forall x :: x in invs && !Reclaimable(x, now) ==> x in r
  {
    Filter((x: Invitation) => !Reclaimable(x, now), invs)
  }

  /** A pending invitation is neither expired nor reclaimable. */
  lemma PendingIsLive(x: Invitation, now: int)
    requires IsPending(x, now)
    ensures !IsExpired(x, now) && !Reclaimable(x, now)
  {
  }

  /** `cleanupExpired` never changes what a token resolves to. */
  lemma CleanupKeepsValidTokens(invs: seq<Invitation>, token: string, now: int)
    ensures FindValidByToken(CleanupExpired(invs, now), token, now) == FindValidByToken(invs, token, now)
  {
    var keep := (x: Invitation) => !Reclaimable(x, now);
    assert CleanupExpired(invs, now) == Filter(keep, invs);
    FindFirstFilter(TokenQuery(token, now), keep, invs);
  }

  // ---------------------------------------------------------------------
  // The indexes and what every stored document satisfies

  predicate InvitationIdsDiffer(a: Invitation, b: Invitation) { a.id != b.id }

  /** The `unique` index on `token`. */
  predicate InvitationTokensDiffer(a: Invitation, b: Invitation) { a.token != b.token }

  /** The unique index on `(email, role, isUsed)` restricted to `isUsed: false`:
      two unused invitations never share address and role, expired or not. */
  predicate UnusedIndexAllows(a: Invitation, b: Invitation) {
    !(!a.isUsed && !b.isUsed && a.email == b.email && a.role == b.role)
  }

  function CreatedAt(x: Invitation): int { x.createdAt }

  ghost predicate IndexesHold(invs: seq<Invitation>) {
    Pairwise(InvitationIdsDiffer, invs) && Pairwise(InvitationTokensDiffer, invs)
    && Pairwise(UnusedIndexAllows, invs)
  }

  /** A saved document: validators passed, hooks and timestamps applied. */
  ghost predicate WellFormed(x: Invitation, now: int) {
    x.token != "" && EmailMatches(x.email) && IsLowerCase(x.email)
    && x.invitedByDetails.name != "" && x.invitedByDetails.email != ""
    && x.createdAt <= x.updatedAt <= now
    && x.expiresAt == x.createdAt + InvitationLifetime
    && (x.isUsed ==> x.usedAt.Some? && x.createdAt <= x.usedAt.value <= now)
  }

  /** The collection invariant: well-formed documents with fresh ids, the unique
      indexes, and insertion order by creation time. */
  ghost predicate InvitationsValid(invs: seq<Invitation>, now: int, nextId: nat) {
    (forall x :: x in invs ==> WellFormed(x, now) && x.id < nextId)
    && IndexesHold(invs) && Ascending(CreatedAt, invs)
  }

  /** Saving `doc` would violate a unique index (E11000) against another document. */
  predicate SaveConflict(invs: seq<Invitation>, doc: Invitation) {
    exists x :: x in invs && x.id != doc.id && !(InvitationTokensDiffer(x, doc) && UnusedIndexAllows(x, doc))
  }

  /** With the indexes in force a token names at most one document. */
  lemma TokenNamesOneDocument(invs: seq<Invitation>, x: Invitation, y: Invitation)
    requires IndexesHold(invs) && x in invs && y in invs && x.token == y.token
    ensures x == y
  {
    var i :| 0 <= i < |invs| && invs[i] == x;
    var j :| 0 <= j < |invs| && invs[j] == y;
  }

  /** The unique partial index ignores expiry while the route's duplicate check
      does not: an unused invitation past its expiry (not yet reaped) is
      invisible to the pending lookup, yet a new unused invitation for the same
      address and role conflicts with it at save. */
  lemma StaleInvitationBlocksSave(invs: seq<Invitation>, stale: Invitation, doc: Invitation, now: int)
    requires Pairwise(UnusedIndexAllows, invs)
    requires stale in invs && !stale.isUsed && stale.expiresAt <= now
    requires doc.email == stale.email && doc.role == stale.role && !doc.isUsed && doc.id != stale.id
    ensures forall x :: x in invs && x.email == doc.email && x.role == doc.role ==> !IsPending(x, now)
    ensures SaveConflict(invs, doc)
  {
    assert !UnusedIndexAllows(stale, doc);
  }

  /** Inserting a well-formed document with a fresh id that violates no index
      keeps the collection invariant. */
  lemma InsertKeepsValid(invs: seq<Invitation>, now: int, nextId: nat, doc: Invitation)
    requires InvitationsValid(invs, now, nextId)
    requires WellFormed(doc, now) && doc.id == nextId && doc.createdAt == now
    requires !SaveConflict(invs, doc)
    ensures InvitationsValid(invs + [doc], now, nextId + 1)
  {
    forall y | y in invs ensures InvitationIdsDiffer(y, doc) && InvitationTokensDiffer(y, doc) && UnusedIndexAllows(y, doc) {
      assert y.id < nextId;
    }
    PairwiseAppend(InvitationIdsDiffer, invs, doc);
    PairwiseAppend(InvitationTokensDiffer, invs, doc);
    PairwiseAppend(UnusedIndexAllows, invs, doc);
    AscendingAppend(CreatedAt, invs, doc);
  }

  /** Replacing a document by a well-formed one with the same id, token and
      creation time that violates no index keeps the collection invariant. */
  lemma UpdateKeepsValid(invs: seq<Invitation>, now: int, nextId: nat, k: nat, doc: Invitation)
    requires InvitationsValid(invs, now, nextId) && k < |invs|
    requires WellFormed(doc, now) && doc.id == invs[k].id && doc.token == invs[k].token
    requires doc.createdAt == invs[k].createdAt
    requires !SaveConflict(invs, doc)
    ensures InvitationsValid(invs[k := doc], now, nextId)
  {
    var t := invs[k := doc];
    forall i | 0 <= i < |invs| && i != k
      ensures InvitationIdsDiffer(invs[i], doc) && InvitationTokensDiffer(invs[i], doc) && UnusedIndexAllows(invs[i], doc)
    {
      if i < k {
        assert InvitationIdsDiffer(invs[i], invs[k]);
      } else {
        assert InvitationIdsDiffer(invs[k], invs[i]);
      }
    }
    forall i, j | 0 <= i < j < |t| ensures UnusedIndexAllows(t[i], t[j]) {
      if i == k {
        assert UnusedIndexAllows(invs[j], doc);
      } else if j != k {
        assert t[i] == invs[i] && t[j] == invs[j];
      }
    }
    PairwiseUpdate(InvitationIdsDiffer, invs, k, doc);
    PairwiseUpdate(InvitationTokensDiffer, invs, k, doc);
    forall i, j | 0 <= i < j < |t| ensures CreatedAt(t[i]) <= CreatedAt(t[j]) {
      assert CreatedAt(t[i]) == CreatedAt(invs[i]) && CreatedAt(t[j]) == CreatedAt(invs[j]);
    }
    assert forall y :: y in t ==> y == doc || y in invs;
  }

  /** `cleanupExpired` keeps the collection invariant. */
  lemma CleanupKeepsValid(invs: seq<Invitation>, now: int, nextId: nat)
    requires InvitationsValid(invs, now, nextId)
    ensures InvitationsValid(CleanupExpired(invs, now), now, nextId)
  {
    var keep := (x: Invitation) => !Reclaimable(x, now);
    assert CleanupExpired(invs, now) == Filter(keep, invs);
    FilterPairwise(InvitationIdsDiffer, keep, invs);
    FilterPairwise(InvitationTokensDiffer, keep, invs);
    FilterPairwise(UnusedIndexAllows, keep, invs);
    FilterAscending(CreatedAt, keep, invs);
  }

  /** Time passing keeps every document well-formed. */
  lemma LaterKeepsValid(invs: seq<Invitation>, now: int, later: int, nextId: nat)
    requires InvitationsValid(invs, now, nextId) && now <= later
    ensures InvitationsValid(invs, later, nextId)
  {
  }

  /** The accept route's update: `isUsed = true`, `usedAt = new Date()`, then
      `save()`. The hook sees `usedAt` already set and leaves it. */
  function MarkUsed(x: Invitation, now: int): (r: Invitation)
    ensures r.isUsed && r.usedAt == Some(now) && r.updatedAt == now
    ensures r.(isUsed := x.isUsed, usedAt := x.usedAt, updatedAt := x.updatedAt) == x
  {
    PreSave(x.(isUsed := true, usedAt := Some(now), updatedAt := now), x.token, true, now)
  }

  /** Marking a stored invitation used keeps the collection invariant, and its
      token then resolves to nothing. */
  lemma MarkUsedKeepsValid(invs: seq<Invitation>, now: int, nextId: nat, k: nat)
    requires InvitationsValid(invs, now, nextId) && k < |invs|
    ensures InvitationsValid(invs[k := MarkUsed(invs[k], now)], now, nextId)
    ensures FindValidByToken(invs[k := MarkUsed(invs[k], now)], invs[k].token, now).None?
  {
    var doc := MarkUsed(invs[k], now);
    forall x | x in invs && x.id != doc.id ensures InvitationTokensDiffer(x, doc) && UnusedIndexAllows(x, doc) {
      var j :| 0 <= j < |invs| && invs[j] == x;
      if j < k {
        assert InvitationTokensDiffer(invs[j], invs[k]);
      } else {
        assert InvitationTokensDiffer(invs[k], invs[j]);
      }
    }
    UpdateKeepsValid(invs, now, nextId, k, doc);
    var t := invs[k := doc];
    forall x | x in t ensures !(x.token == doc.token && IsPending(x, now)) {
      var j :| 0 <= j < |t| && t[j] == x;
      if j != k {
        if j < k {
          assert InvitationTokensDiffer(invs[j], invs[k]);
        } else {
          assert InvitationTokensDiffer(invs[k], invs[j]);
        }
      }
    }
  }

  /** `findByIdAndDelete(id)`: the collection without the document of that id. */
  function RemoveById(invs: seq<Invitation>, id: nat): (r: seq<Invitation>)
    ensures forall x :: x in r ==> x in invs && x.id != id
    ensures forall x :: x in invs && x.id != id ==> x in r
    ensures |r| <= |invs|
  {
    Filter((x: Invitation) => x.id != id, invs)
  }

  /** Deleting a document keeps the collection invariant. */
  lemma RemoveKeepsValid(invs: seq<Invitation>, now: int, nextId: nat, id: nat)
    requires InvitationsValid(invs, now, nextId)
    ensures InvitationsValid(RemoveById(invs, id), now, nextId)
  {
    var keep := (x: Invitation) => x.id != id;
    assert RemoveById(invs, id) == Filter(keep, invs);
    FilterPairwise(InvitationIdsDiffer, keep, invs);
    FilterPairwise(InvitationTokensDiffer, keep, invs);
    FilterPairwise(UnusedIndexAllows, keep, invs);
    FilterAscending(CreatedAt, keep, invs);
  }

  /** With unique ids, a document is the only one carrying its id. */
  lemma IdNamesOneDocument(invs: seq<Invitation>, y: Invitation)
    requires Pairwise(InvitationIdsDiffer, invs) && y in invs
    ensures forall x :: x in invs && x.id == y.id ==> x == y
  {
    forall x | x in invs && x.id == y.id ensures x == y {
      var i :| 0 <= i < |invs| && invs[i] == x;
      var j :| 0 <= j < |invs| && invs[j] == y;
    }
  }

  /** Saving a new pending document that violates no index keeps the invariant,
      and its token then resolves to it. */
  lemma InsertResolvesToken(invs: seq<Invitation>, now: int, nextId: nat, doc: Invitation)
    requires InvitationsValid(invs, now, nextId)
    requires WellFormed(doc, now) && doc.id == nextId && doc.createdAt == now && IsPending(doc, now)
    requires !SaveConflict(invs, doc)
    ensures InvitationsValid(invs + [doc], now, nextId + 1)
    ensures FindValidByToken(invs + [doc], doc.token, now) == Some(doc)
  {
    InsertKeepsValid(invs, now, nextId, doc);
    forall x | x in invs ensures x.token != doc.token {
      assert x.id < nextId;
      assert InvitationTokensDiffer(x, doc);
    }
    FindFirstAppend(TokenQuery(doc.token, now), invs, doc);
  }
}
