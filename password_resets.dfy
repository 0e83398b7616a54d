/** Password-reset records (src/models/PasswordReset.ts). A record stores the
    SHA-256 digest of the raw token mailed to the user, never the raw token.
    The digest is modelled as an opaque injective function: `Sha256(raw)` is a
    constructor the model never takes apart. */
module PasswordResets {
  import opened Seqs
  import opened Text

  /** The hex digest of SHA-256 (FIPS 180-4), as an uninterpreted injective value. */
  datatype Digest = Sha256(preimage: string)

  function Hash(raw: string): Digest {
    Sha256(raw)
  }

  /** Equal digests come from equal raw tokens. */
  lemma HashInjective(a: string, b: string)
    ensures Hash(a) == Hash(b) ==> a == b
  {
  }

  datatype ResetRecord = ResetRecord(
    id: nat, userId: nat, email: string, token: Digest,
    expiresAt: int, isUsed: bool, createdAt: int, updatedAt: int)

  /** A reset link is valid for one hour. */
  const ResetLifetime: int := 60 * 60 * 1000

  /** A second request within two minutes of an active record is refused. */
  const ResendWait: int := 2 * 60 * 1000

  /** The TTL index on `updatedAt` for used records: 24 hours. */
  const UsedRecordTtl: int := 24 * 60 * 60 * 1000

  /** `new PasswordReset({...})` on its first save: `isUsed` defaults to false,
      the e-mail address goes through the `lowercase` setter and both
      timestamps are the save instant. */
  function NewReset(id: nat, userId: nat, email: string, token: Digest, expiresAt: int, now: int): (r: ResetRecord)
    ensures r.id == id && r.userId == userId && r.token == token && r.expiresAt == expiresAt
    ensures r.email == ToLower(email) && IsLowerCase(r.email)
    ensures !r.isUsed && r.createdAt == r.updatedAt == now
  {
    ToLowerIsLowerCase(email);
    ResetRecord(id, userId, ToLower(email), token, expiresAt, false, now, now)
  }

  /** The query `{ isUsed: false, expiresAt: { $gt: now } }`. */
  predicate IsActive(r: ResetRecord, now: int) {
    !r.isUsed && r.expiresAt > now
  }

  /** What the two TTL indexes allow the server to delete: any record past
      `expiresAt`, and a used record a day after its last update. */
  predicate Reclaimable(r: ResetRecord, now: int) {
    now > r.expiresAt || (r.isUsed && now > r.updatedAt + UsedRecordTtl)
  }

  /** Reclamation never removes a record that could still be redeemed. */
  lemma ReclaimableIsInactive(r: ResetRecord, now: int)
    ensures Reclaimable(r, now) ==> !IsActive(r, now)
    ensures IsActive(r, now) ==> !Reclaimable(r, now)
  {
  }

  predicate ResetIdsDiffer(a: ResetRecord, b: ResetRecord) { a.id != b.id }

  /** The `unique` index on `token`. */
  predicate ResetTokensDiffer(a: ResetRecord, b: ResetRecord) { a.token != b.token }

  /** No user has two records that could both be redeemed at `now`. */
  function NotBothActive(now: int): (ResetRecord, ResetRecord) -> bool {
    (a: ResetRecord, b: ResetRecord) => !(a.userId == b.userId && IsActive(a, now) && IsActive(b, now))
  }

  function ActiveQuery(userId: nat, now: int): ResetRecord -> bool {
    (r: ResetRecord) => r.userId == userId && IsActive(r, now)
  }

  function DigestQuery(token: Digest, now: int): ResetRecord -> bool {
    (r: ResetRecord) => r.token == token && IsActive(r, now)
  }

  /** The records of one user that could be redeemed at `now`. */
  function ActiveFor(resets: seq<ResetRecord>, userId: nat, now: int): (r: seq<ResetRecord>)
    ensures forall x :: x in r <==> x in resets && x.userId == userId && IsActive(x, now)
  {
    Filter(ActiveQuery(userId, now), resets)
  }

  /** A stored record: required fields present, `email` lower-cased, timestamps
      no later than `now`, and the one-hour expiry the route gives every record. */
  ghost predicate ResetWellFormed(r: ResetRecord, now: int) {
    IsLowerCase(r.email) && r.createdAt <= r.updatedAt <= now
    && r.expiresAt == r.createdAt + ResetLifetime
  }

  /** The collection invariant: fresh ids, the unique token index, and at most
      one redeemable record per user. */
  ghost predicate ResetsValid(resets: seq<ResetRecord>, now: int, nextId: nat) {
    (forall r :: r in resets ==> ResetWellFormed(r, now) && r.id < nextId)
    && Pairwise(ResetIdsDiffer, resets) && Pairwise(ResetTokensDiffer, resets)
    && Pairwise(NotBothActive(now), resets)
  }

  /** At most one redeemable record per user, stated on the records themselves. */
  lemma AtMostOneActive(resets: seq<ResetRecord>, now: int, nextId: nat, a: ResetRecord, b: ResetRecord)
    requires ResetsValid(resets, now, nextId)
    requires a in resets && b in resets && a.userId == b.userId && IsActive(a, now) && IsActive(b, now)
    ensures a == b
  {
    var i :| 0 <= i < |resets| && resets[i] == a;
    var j :| 0 <= j < |resets| && resets[j] == b;
  }

  /** Records only stop being redeemable as time passes, so the invariant survives it. */
  lemma LaterKeepsResetsValid(resets: seq<ResetRecord>, now: int, later: int, nextId: nat)
    requires ResetsValid(resets, now, nextId) && now <= later
    ensures ResetsValid(resets, later, nextId)
  {
    forall i, j | 0 <= i < j < |resets| ensures NotBothActive(later)(resets[i], resets[j]) {
      assert NotBothActive(now)(resets[i], resets[j]);
    }
  }

  // ---------------------------------------------------------------------
  // The writes the routes make

  /** `isUsed = true` then `save()`: the timestamps plugin moves `updatedAt`. */
  function MarkResetUsed(r: ResetRecord, now: int): (m: ResetRecord)
    ensures m.isUsed && m.updatedAt == now
    ensures m.(isUsed := r.isUsed, updatedAt := r.updatedAt) == r
  {
    r.(isUsed := true, updatedAt := now)
  }

  /** `updateMany({ userId, isUsed: false }, { isUsed: true })`: every unused
      record of the user becomes used, and `updatedAt` moves with it. */
  function RetireUnused(resets: seq<ResetRecord>, userId: nat, now: int): (r: seq<ResetRecord>)
    ensures |r| == |resets|
    ensures forall i :: 0 <= i < |r| ==>
      r[i] == if resets[i].userId == userId && !resets[i].isUsed then MarkResetUsed(resets[i], now) else resets[i]
  {
    seq(|resets|, i requires 0 <= i < |resets| =>
      if resets[i].userId == userId && !resets[i].isUsed then MarkResetUsed(resets[i], now) else resets[i])
  }

  /** Afterwards the user has no redeemable record, and nobody else's records changed. */
  lemma RetireUnusedDeactivates(resets: seq<ResetRecord>, userId: nat, now: int)
    ensures forall x :: x in RetireUnused(resets, userId, now) && x.userId == userId ==> x.isUsed
    ensures forall i :: 0 <= i < |resets| && resets[i].userId != userId ==>
      RetireUnused(resets, userId, now)[i] == resets[i]
  {
    var r := RetireUnused(resets, userId, now);
    forall x | x in r && x.userId == userId ensures x.isUsed {
      var i :| 0 <= i < |r| && r[i] == x;
    }
  }

  /** A record is updated in place: ids, tokens and creation times stay, the
      record stays well-formed, and it is no more redeemable than before. */
  ghost predicate SafeUpdate(before: ResetRecord, after: ResetRecord, now: int) {
    after.id == before.id && after.token == before.token && after.userId == before.userId
    && ResetWellFormed(after, now) && (IsActive(after, now) ==> IsActive(before, now))
  }

  /** Updates that keep ids and tokens and only ever deactivate keep the invariant. */
  lemma SafeUpdatesKeepValid(resets: seq<ResetRecord>, updated: seq<ResetRecord>, now: int, nextId: nat)
    requires ResetsValid(resets, now, nextId) && |updated| == |resets|
    requires forall i :: 0 <= i < |resets| ==> SafeUpdate(resets[i], updated[i], now)
    ensures ResetsValid(updated, now, nextId)
  {
    forall x | x in updated ensures ResetWellFormed(x, now) && x.id < nextId {
      var i :| 0 <= i < |updated| && updated[i] == x;
      assert resets[i] in resets;
    }
    forall i, j | 0 <= i < j < |updated|
      ensures ResetIdsDiffer(updated[i], updated[j]) && ResetTokensDiffer(updated[i], updated[j])
      ensures NotBothActive(now)(updated[i], updated[j])
    {
      assert ResetIdsDiffer(resets[i], resets[j]) && ResetTokensDiffer(resets[i], resets[j]);
      assert NotBothActive(now)(resets[i], resets[j]);
    }
  }

  /** Retiring a user's records keeps the collection invariant. */
  lemma RetireUnusedKeepsValid(resets: seq<ResetRecord>, userId: nat, now: int, nextId: nat)
    requires ResetsValid(resets, now, nextId)
    ensures ResetsValid(RetireUnused(resets, userId, now), now, nextId)
  {
    var r := RetireUnused(resets, userId, now);
    forall i | 0 <= i < |resets| ensures SafeUpdate(resets[i], r[i], now) {
      assert resets[i] in resets;
    }
    SafeUpdatesKeepValid(resets, r, now, nextId);
  }

  /** Marking one record used keeps the collection invariant. */
  lemma MarkResetUsedKeepsValid(resets: seq<ResetRecord>, now: int, nextId: nat, k: nat)
    requires ResetsValid(resets, now, nextId) && k < |resets|
    ensures ResetsValid(resets[k := MarkResetUsed(resets[k], now)], now, nextId)
  {
    var r := resets[k := MarkResetUsed(resets[k], now)];
    forall i | 0 <= i < |resets| ensures SafeUpdate(resets[i], r[i], now) {
      assert resets[i] in resets;
    }
    SafeUpdatesKeepValid(resets, r, now, nextId);
  }

  /** Once the first redeemable record of a user is marked used, the user has
      none left: the invariant allowed only one. */
  lemma SupersedeLeavesNoneActive(resets: seq<ResetRecord>, now: int, nextId: nat, userId: nat, k: nat)
    requires ResetsValid(resets, now, nextId) && k < |resets|
    requires resets[k].userId == userId && IsActive(resets[k], now)
    ensures forall x :: x in resets[k := MarkResetUsed(resets[k], now)] ==> !ActiveQuery(userId, now)(x)
  {
    var r := resets[k := MarkResetUsed(resets[k], now)];
    forall x | x in r ensures !ActiveQuery(userId, now)(x) {
      var j :| 0 <= j < |r| && r[j] == x;
      if j != k && ActiveQuery(userId, now)(x) {
        AtMostOneActive(resets, now, nextId, resets[j], resets[k]);
      }
    }
  }

  /** The unique token index would refuse a new record with this digest. */
  predicate TokenTaken(resets: seq<ResetRecord>, token: Digest) {
    exists r :: r in resets && r.token == token
  }

  /** Inserting a well-formed record with a fresh id and digest, for a user
      with no redeemable record, keeps the collection invariant. */
  lemma InsertResetKeepsValid(resets: seq<ResetRecord>, now: int, nextId: nat, rec: ResetRecord)
    requires ResetsValid(resets, now, nextId)
    requires ResetWellFormed(rec, now) && rec.id == nextId && !TokenTaken(resets, rec.token)
    requires forall x :: x in resets ==> !ActiveQuery(rec.userId, now)(x)
    ensures ResetsValid(resets + [rec], now, nextId + 1)
  {
    forall x | x in resets
      ensures ResetIdsDiffer(x, rec) && ResetTokensDiffer(x, rec) && NotBothActive(now)(x, rec)
    {
      assert !ActiveQuery(rec.userId, now)(x);
    }
    PairwiseAppend(ResetIdsDiffer, resets, rec);
    PairwiseAppend(ResetTokensDiffer, resets, rec);
    PairwiseAppend(NotBothActive(now), resets, rec);
  }

  /** `deleteOne({ _id: id })`. */
  function RemoveResetById(resets: seq<ResetRecord>, id: nat): (r: seq<ResetRecord>)
    ensures forall x :: x in r ==> x in resets && x.id != id
    ensures forall x :: x in resets && x.id != id ==> x in r
  {
    Filter((x: ResetRecord) => x.id != id, resets)
  }

  /** Deleting the record just inserted restores the collection as it was. */
  lemma RemoveInsertedReset(resets: seq<ResetRecord>, now: int, nextId: nat, rec: ResetRecord)
    requires ResetsValid(resets, now, nextId) && rec.id == nextId
    ensures RemoveResetById(resets + [rec], rec.id) == resets
  {
    FilterDropsLast((x: ResetRecord) => x.id != rec.id, resets, rec);
  }

  /** Marking the presented (unused) record first and then retiring the user's
      unused records leaves the same collection as retiring alone. */
  lemma MarkThenRetire(resets: seq<ResetRecord>, j: nat, now: int)
    requires j < |resets| && !resets[j].isUsed
    ensures RetireUnused(resets[j := MarkResetUsed(resets[j], now)], resets[j].userId, now)
         == RetireUnused(resets, resets[j].userId, now)
  {
  }

  /** After retiring the user's records, the digest of any of them redeems nothing. */
  lemma RetireUnusedConsumesToken(resets: seq<ResetRecord>, now: int, nextId: nat, j: nat)
    requires ResetsValid(resets, now, nextId) && j < |resets|
    ensures forall x :: x in RetireUnused(resets, resets[j].userId, now) ==> !DigestQuery(resets[j].token, now)(x)
  {
    var r := RetireUnused(resets, resets[j].userId, now);
    forall x | x in r ensures !DigestQuery(resets[j].token, now)(x) {
      var i :| 0 <= i < |r| && r[i] == x;
      if i < j {
        assert ResetTokensDiffer(resets[i], resets[j]);
      } else if j < i {
        assert ResetTokensDiffer(resets[j], resets[i]);
      }
    }
  }
}
