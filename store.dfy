/** The three collections the routes read and write, and the request clock.
    Each route handler runs at one instant, `now`; between requests the clock
    only moves forward. */
module Store {
  import opened Seqs
  import opened Users
  import opened Invitations
  import opened PasswordResets

  /** The outcome of handing a message to the mail service: delivered, or a
      failure carrying its error text (possibly empty). */
  datatype Delivery = Delivered | NotDelivered(error: string)

  class Database {
    var users: seq<User>
    var invitations: seq<Invitation>
    var resets: seq<ResetRecord>
    var now: int
    var nextUserId: nat
    var nextInvitationId: nat
    var nextResetId: nat

    /** Every collection satisfies its schema and its unique indexes. */
    ghost predicate Valid()
      reads this
    {
      UsersValid(users, nextUserId)
      && InvitationsValid(invitations, now, nextInvitationId)
      && ResetsValid(resets, now, nextResetId)
    }

    /** A database holding the given users (created elsewhere) and nothing else. */
    constructor (initialUsers: seq<User>, start: int)
      requires Pairwise(UserIdsDiffer, initialUsers)
      ensures Valid()
      ensures users == initialUsers && invitations == [] && resets == [] && now == start
    {
      users := initialUsers;
      invitations := [];
      resets := [];
      now := start;
      nextUserId := NextFreeId(initialUsers);
      nextInvitationId := 0;
      nextResetId := 0;
    }

    /** Time passes between requests. */
    method AdvanceClock(later: int)
      requires Valid() && now <= later
      modifies this
      ensures Valid() && now == later
      ensures users == old(users) && invitations == old(invitations) && resets == old(resets)
      ensures nextUserId == old(nextUserId) && nextInvitationId == old(nextInvitationId)
      ensures nextResetId == old(nextResetId)
    {
      LaterKeepsValid(invitations, now, later, nextInvitationId);
      LaterKeepsResetsValid(resets, now, later, nextResetId);
      now := later;
    }

    /** `Invitation.cleanupExpired()`: deletes the reclaimable invitations and
        reports how many went. */
    method CleanupExpiredInvitations() returns (deletedCount: nat)
      requires Valid()
      modifies this
      ensures Valid()
      ensures invitations == CleanupExpired(old(invitations), now)
      ensures deletedCount == |old(invitations)| - |invitations|
      ensures forall t :: FindValidByToken(invitations, t, now) == FindValidByToken(old(invitations), t, now)
      ensures users == old(users) && resets == old(resets) && now == old(now)
      ensures nextUserId == old(nextUserId) && nextInvitationId == old(nextInvitationId)
      ensures nextResetId == old(nextResetId)
    {
      var before := invitations;
      CleanupKeepsValid(invitations, now, nextInvitationId);
      forall t ensures FindValidByToken(CleanupExpired(before, now), t, now) == FindValidByToken(before, t, now) {
        CleanupKeepsValidTokens(before, t, now);
      }
      invitations := CleanupExpired(invitations, now);
      deletedCount := |before| - |invitations|;
    }

    /** `save()` of a new invitation: the document gets the next id and the
        request instant, and a save that would break an index is refused
        before this point. */
    method InsertInvitation(doc: Invitation)
      requires Valid()
      requires WellFormed(doc, now) && doc.id == nextInvitationId && doc.createdAt == now && IsPending(doc, now)
      requires !SaveConflict(invitations, doc)
      modifies this
      ensures Valid()
      ensures invitations == old(invitations) + [doc] && nextInvitationId == old(nextInvitationId) + 1
      ensures FindValidByToken(invitations, doc.token, now) == Some(doc)
      ensures users == old(users) && resets == old(resets) && now == old(now)
      ensures nextUserId == old(nextUserId) && nextResetId == old(nextResetId)
    {
      InsertResolvesToken(invitations, now, nextInvitationId, doc);
      invitations := invitations + [doc];
      nextInvitationId := nextInvitationId + 1;
    }

    /** The accept route's `save()` of the invitation at position `k` marked used. */
    method MarkInvitationUsed(k: nat)
      requires Valid() && k < |invitations|
      modifies this
      ensures Valid()
      ensures invitations == old(invitations)[k := MarkUsed(old(invitations)[k], now)]
      ensures FindValidByToken(invitations, old(invitations)[k].token, now).None?
      ensures users == old(users) && resets == old(resets) && now == old(now)
      ensures nextUserId == old(nextUserId) && nextInvitationId == old(nextInvitationId)
      ensures nextResetId == old(nextResetId)
    {
      MarkUsedKeepsValid(invitations, now, nextInvitationId, k);
      invitations := invitations[k := MarkUsed(invitations[k], now)];
    }

    /** `findByIdAndDelete(id)` on the invitations. */
    method DeleteInvitation(id: nat)
      requires Valid()
      modifies this
      ensures Valid()
      ensures invitations == RemoveById(old(invitations), id)
      ensures users == old(users) && resets == old(resets) && now == old(now)
      ensures nextUserId == old(nextUserId) && nextInvitationId == old(nextInvitationId)
      ensures nextResetId == old(nextResetId)
    {
      RemoveKeepsValid(invitations, now, nextInvitationId, id);
      invitations := RemoveById(invitations, id);
    }

    /** `User.create(...)`: the new user takes the next id; the unique e-mail
        address and username have been checked by the caller. */
    method InsertUser(u: User)
      requires Valid() && u.id == nextUserId
      requires forall v :: v in users ==> v.email != u.email && v.username != u.username
      modifies this
      ensures Valid()
      ensures users == old(users) + [u] && nextUserId == old(nextUserId) + 1
      ensures UsersUnique(old(users)) ==> UsersUnique(users)
      ensures invitations == old(invitations) && resets == old(resets) && now == old(now)
      ensures nextInvitationId == old(nextInvitationId) && nextResetId == old(nextResetId)
    {
      AddUserKeepsUnique(users, nextUserId, u);
      users := users + [u];
      nextUserId := nextUserId + 1;
    }

    /** `isUsed = true` then `save()` on the reset record at position `k`. */
    method MarkResetUsedAt(k: nat)
      requires Valid() && k < |resets|
      modifies this
      ensures Valid()
      ensures resets == old(resets)[k := MarkResetUsed(old(resets)[k], now)]
      ensures users == old(users) && invitations == old(invitations) && now == old(now)
      ensures nextUserId == old(nextUserId) && nextInvitationId == old(nextInvitationId)
      ensures nextResetId == old(nextResetId)
    {
      MarkResetUsedKeepsValid(resets, now, nextResetId, k);
      resets := resets[k := MarkResetUsed(resets[k], now)];
    }

    /** `save()` of a new reset record for a user with no redeemable record. */
    method InsertReset(rec: ResetRecord)
      requires Valid()
      requires ResetWellFormed(rec, now) && rec.id == nextResetId && !TokenTaken(resets, rec.token)
      requires forall x :: x in resets ==> !ActiveQuery(rec.userId, now)(x)
      modifies this
      ensures Valid()
      ensures resets == old(resets) + [rec] && nextResetId == old(nextResetId) + 1
      ensures users == old(users) && invitations == old(invitations) && now == old(now)
      ensures nextUserId == old(nextUserId) && nextInvitationId == old(nextInvitationId)
    {
      InsertResetKeepsValid(resets, now, nextResetId, rec);
      resets := resets + [rec];
      nextResetId := nextResetId + 1;
    }

    /** `PasswordReset.deleteOne({ _id: id })`. */
    method DeleteReset(id: nat)
      requires Valid()
      modifies this
      ensures Valid()
      ensures resets == RemoveResetById(old(resets), id)
      ensures users == old(users) && invitations == old(invitations) && now == old(now)
      ensures nextUserId == old(nextUserId) && nextInvitationId == old(nextInvitationId)
      ensures nextResetId == old(nextResetId)
    {
      var keep := (x: ResetRecord) => x.id != id;
      assert RemoveResetById(resets, id) == Filter(keep, resets);
      FilterPairwise(ResetIdsDiffer, keep, resets);
      FilterPairwise(ResetTokensDiffer, keep, resets);
      FilterPairwise(NotBothActive(now), keep, resets);
      resets := RemoveResetById(resets, id);
    }

    /** `PasswordReset.updateMany({ userId, isUsed: false }, { isUsed: true })`. */
    method RetireUserResets(userId: nat)
      requires Valid()
      modifies this
      ensures Valid()
      ensures resets == RetireUnused(old(resets), userId, now)
      ensures users == old(users) && invitations == old(invitations) && now == old(now)
      ensures nextUserId == old(nextUserId) && nextInvitationId == old(nextInvitationId)
      ensures nextResetId == old(nextResetId)
    {
      RetireUnusedKeepsValid(resets, userId, now, nextResetId);
      resets := RetireUnused(resets, userId, now);
    }

    /** `user.password = password; user.save()` on the user at position `k`. */
    method SetPassword(k: nat, password: string)
      requires Valid() && k < |users|
      modifies this
      ensures Valid()
      ensures users == old(users)[k := old(users)[k].(password := password)]
      ensures resets == old(resets) && invitations == old(invitations) && now == old(now)
      ensures nextUserId == old(nextUserId) && nextInvitationId == old(nextInvitationId)
      ensures nextResetId == old(nextResetId)
    {
      UpdateUserKeepsValid(users, nextUserId, k, users[k].(password := password));
      users := users[k := users[k].(password := password)];
    }
  }
}
