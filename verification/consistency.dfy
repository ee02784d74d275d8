/**
 * Envelope consistency: every relationship's wraps open, each under the key
 * its owner can currently produce, to one and the same KEK. The secrets the
 * keys come from (password, email address, outstanding one-time token) are
 * not stored anywhere; the invariant is stated relative to them.
 */
module Consistency {
  import opened Results
  import opened Primitives
  import opened Wire
  import opened Persistence
  import opened Envelope
  import opened Relational

  /** What only the user holds: password, email address, and the outstanding reset token if any. */
  datatype Secrets = Secrets(password: string, email: string, token: Option<Bytes>)

  /** The key that currently opens `slot`; None for the one-time slot when no token is outstanding. */
  function KeyFor(cr: Crypto, salt: Bytes, sec: Secrets, slot: Slot): Option<Bytes>
  {
    match slot
    case PasswordSlot => Some(cr.deriveKey(sec.password, salt))
    case EmailSlot => Some(cr.deriveKey(sec.email, salt))
    case OneTimeSlot => sec.token
  }

  /** `slot` of `r` opens to `kek` under its current key; an empty one-time slot means no reset is pending. */
  ghost predicate SlotAgrees(cr: Crypto, co: Codec, salt: Bytes, r: Relationship, sec: Secrets, kek: Bytes, slot: Slot)
  {
    if slot == OneTimeSlot && SlotOf(r, slot) == "" then true
    else KeyFor(cr, salt, sec, slot).Some? && Unwrap(cr, co, SlotOf(r, slot), KeyFor(cr, salt, sec, slot).value) == Ok(kek)
  }

  ghost predicate EnvelopeAgrees(cr: Crypto, co: Codec, salt: Bytes, r: Relationship, sec: Secrets, kek: Bytes)
  {
    && SlotAgrees(cr, co, salt, r, sec, kek, PasswordSlot)
    && SlotAgrees(cr, co, salt, r, sec, kek, EmailSlot)
    && SlotAgrees(cr, co, salt, r, sec, kek, OneTimeSlot)
  }

  /** The user row matches the user's secrets: salt decodes, password matches, email hash is the stored one. */
  ghost predicate UserAgrees(cr: Crypto, co: Codec, emailSalt: Bytes, u: AccountUser, sec: Secrets)
  {
    && Authenticated(cr, co, u, sec.password)
    && u.hashedEmail == co.encode(cr.hashEmail(sec.email, emailSalt))
  }

  /** User ids (the primary key) and hashed emails (a unique index) are unique. */
  ghost predicate UniqueKeys(users: seq<AccountUser>)
  {
    forall i, j :: 0 <= i < j < |users| ==>
      users[i].userId != users[j].userId && users[i].hashedEmail != users[j].hashedEmail
  }

  ghost predicate RelationshipAgrees(cr: Crypto, co: Codec, db: Db, r: Relationship,
                                     secrets: map<string, Secrets>, keks: map<string, Bytes>)
  {
    && r.userId in secrets
    && r.relationshipId in keks
    && FindUserById(db.users, r.userId).Some?
    && var u := db.users[FindUserById(db.users, r.userId).value];
       && co.decode(u.salt).Some?
       && EnvelopeAgrees(cr, co, co.decode(u.salt).value, r, secrets[r.userId], keks[r.relationshipId])
  }

  /** The database is envelope-consistent with the users' `secrets` and the relationships' `keks`. */
  ghost predicate Consistent(cr: Crypto, co: Codec, db: Db, secrets: map<string, Secrets>, keks: map<string, Bytes>)
  {
    && UniqueKeys(db.users)
    && (forall i :: 0 <= i < |db.users| ==>
          db.users[i].userId in secrets && UserAgrees(cr, co, db.emailSalt, db.users[i], secrets[db.users[i].userId]))
    && (forall j :: 0 <= j < |db.relationships| ==>
          RelationshipAgrees(cr, co, db, db.relationships[j], secrets, keks))
  }

  /**
   * One re-wrapped row stays consistent when the plan reads its source slot
   * under the old secrets' key, writes its target under the new secrets' key,
   * and every slot it leaves alone keeps its key.
   */
  lemma RewrapKeepsEnvelope(cr: Crypto, co: Codec, plan: Plan, salt: Bytes, r: Relationship, r': Relationship,
                            sec: Secrets, sec': Secrets, kek: Bytes)
    requires EnvelopeAgrees(cr, co, salt, r, sec, kek)
    requires RowRewrapped(cr, co, plan, r, r')
    requires KeyFor(cr, salt, sec, plan.source) == Some(plan.sourceKey)
    requires KeyFor(cr, salt, sec', plan.target) == Some(plan.targetKey)
    requires plan.consumesSource ==> plan.source == OneTimeSlot && plan.target != OneTimeSlot
    requires forall slot :: slot != plan.target && !(plan.consumesSource && slot == plan.source) ==>
               KeyFor(cr, salt, sec', slot) == KeyFor(cr, salt, sec, slot)
    ensures EnvelopeAgrees(cr, co, salt, r', sec', kek)
  {
    var unwrapped := Unwrap(cr, co, SlotOf(r, plan.source), plan.sourceKey);
    assert SlotOf(r, plan.source) != "" by {
      if SlotOf(r, plan.source) == "" {
        assert NoSpace(SlotOf(r, plan.source));
      }
    }
    assert unwrapped == Ok(kek);
    forall slot | true
      ensures SlotAgrees(cr, co, salt, r', sec', kek, slot)
    {
      if slot == plan.target {
      } else if plan.consumesSource && slot == plan.source {
      } else {
        assert SlotOf(r', slot) == SlotOf(r, slot);
        assert SlotAgrees(cr, co, salt, r, sec, kek, slot) by {
          match slot
          case PasswordSlot =>
          case EmailSlot =>
          case OneTimeSlot =>
        }
      }
    }
  }

  /** The user the invariant associates with a relationship row is the first row with its user id. */
  lemma OwnerIsFound(users: seq<AccountUser>, i: nat)
    requires UniqueKeys(users)
    requires i < |users|
    ensures FindUserById(users, users[i].userId) == Some(i)
  {
  }

  /** The user an email resolves to is the one whose secrets hold that email. */
  lemma EmailFindsOwner(cr: Crypto, co: Codec, db: Db, secrets: map<string, Secrets>, keks: map<string, Bytes>,
                        i: nat, email: string)
    requires Consistent(cr, co, db, secrets, keks)
    requires i < |db.users|
    requires secrets[db.users[i].userId].email == email
    ensures FindUserByHashedEmail(db.users, HashedEmailOf(cr, co, db, email)) == Some(i)
  {
  }

  /**
   * The common shape of every mutating operation: one user row replaced
   * (same id, same salt, agreeing with the user's new secrets) and that
   * user's relationships re-wrapped by a plan that fits the old and new
   * secrets. Such a step keeps the database consistent.
   */
  lemma RewrapKeepsConsistency(cr: Crypto, co: Codec, db: Db, db': Db, secrets: map<string, Secrets>,
                               keks: map<string, Bytes>, i: nat, plan: Plan, sec': Secrets)
    requires Consistent(cr, co, db, secrets, keks)
    requires i < |db.users| && co.decode(db.users[i].salt).Some?
    requires db'.emailSalt == db.emailSalt && db'.accounts == db.accounts
    requires |db'.users| == |db.users|
    requires forall k :: 0 <= k < |db.users| && k != i ==> db'.users[k] == db.users[k]
    requires db'.users[i].userId == db.users[i].userId && db'.users[i].salt == db.users[i].salt
    requires UniqueKeys(db'.users)
    requires UserAgrees(cr, co, db.emailSalt, db'.users[i], sec')
    requires Rewrapped(cr, co, plan, db.users[i].userId, db.relationships, db'.relationships)
    requires KeyFor(cr, co.decode(db.users[i].salt).value, secrets[db.users[i].userId], plan.source) == Some(plan.sourceKey)
    requires KeyFor(cr, co.decode(db.users[i].salt).value, sec', plan.target) == Some(plan.targetKey)
    requires plan.consumesSource ==> plan.source == OneTimeSlot && plan.target != OneTimeSlot
    requires forall slot :: slot != plan.target && !(plan.consumesSource && slot == plan.source) ==>
               KeyFor(cr, co.decode(db.users[i].salt).value, sec', slot)
                 == KeyFor(cr, co.decode(db.users[i].salt).value, secrets[db.users[i].userId], slot)
    ensures Consistent(cr, co, db', secrets[db.users[i].userId := sec'], keks)
  {
    var uid := db.users[i].userId;
    var secrets' := secrets[uid := sec'];
    forall k | 0 <= k < |db'.users|
      ensures db'.users[k].userId in secrets' && UserAgrees(cr, co, db'.emailSalt, db'.users[k], secrets'[db'.users[k].userId])
    {
      if k != i {
        assert db'.users[k] == db.users[k];
        assert db.users[k].userId != uid;
      }
    }
    assert forall k :: 0 <= k < |db.users| ==> db'.users[k].userId == db.users[k].userId && db'.users[k].salt == db.users[k].salt;
    forall j | 0 <= j < |db'.relationships|
      ensures RelationshipAgrees(cr, co, db', db'.relationships[j], secrets', keks)
    {
      assert RelationshipAgrees(cr, co, db, db.relationships[j], secrets, keks);
      RowKeepsAgreeing(cr, co, db, db', secrets, keks, i, plan, sec', db.relationships[j], db'.relationships[j]);
    }
  }

  /** The per-row half of `RewrapKeepsConsistency`. */
  lemma RowKeepsAgreeing(cr: Crypto, co: Codec, db: Db, db': Db, secrets: map<string, Secrets>,
                         keks: map<string, Bytes>, i: nat, plan: Plan, sec': Secrets, r: Relationship, r': Relationship)
    requires UniqueKeys(db.users)
    requires i < |db.users| && co.decode(db.users[i].salt).Some?
    requires |db'.users| == |db.users|
    requires forall k :: 0 <= k < |db.users| ==> db'.users[k].userId == db.users[k].userId && db'.users[k].salt == db.users[k].salt
    requires db.users[i].userId in secrets
    requires RelationshipAgrees(cr, co, db, r, secrets, keks)
    requires if r.userId == db.users[i].userId then RowRewrapped(cr, co, plan, r, r') else r' == r
    requires KeyFor(cr, co.decode(db.users[i].salt).value, secrets[db.users[i].userId], plan.source) == Some(plan.sourceKey)
    requires KeyFor(cr, co.decode(db.users[i].salt).value, sec', plan.target) == Some(plan.targetKey)
    requires plan.consumesSource ==> plan.source == OneTimeSlot && plan.target != OneTimeSlot
    requires forall slot :: slot != plan.target && !(plan.consumesSource && slot == plan.source) ==>
               KeyFor(cr, co.decode(db.users[i].salt).value, sec', slot)
                 == KeyFor(cr, co.decode(db.users[i].salt).value, secrets[db.users[i].userId], slot)
    ensures RelationshipAgrees(cr, co, db', r', secrets[db.users[i].userId := sec'], keks)
  {
    var uid := db.users[i].userId;
    FindUserByIdStable(db.users, db'.users, r.userId);
    var p := FindUserById(db.users, r.userId).value;
    var salt := co.decode(db.users[p].salt).value;
    assert co.decode(db'.users[p].salt) == Some(salt);
    var secrets' := secrets[uid := sec'];
    var kek := keks[r.relationshipId];
    assert EnvelopeAgrees(cr, co, salt, r, secrets[r.userId], kek);
    if r.userId == uid {
      OwnerIsFound(db.users, i);
      RewrapKeepsEnvelope(cr, co, plan, salt, r, r', secrets[uid], sec', kek);
    }
    AgreesVia(cr, co, db', r', secrets', keks, p, salt);
  }

  /** `RelationshipAgrees` from its parts: the owner's row, its salt, and the envelope under that salt. */
  lemma AgreesVia(cr: Crypto, co: Codec, db: Db, r: Relationship, secrets: map<string, Secrets>,
                  keks: map<string, Bytes>, p: nat, salt: Bytes)
    requires r.userId in secrets && r.relationshipId in keks
    requires FindUserById(db.users, r.userId) == Some(p)
    requires p < |db.users| && co.decode(db.users[p].salt) == Some(salt)
    requires EnvelopeAgrees(cr, co, salt, r, secrets[r.userId], keks[r.relationshipId])
    ensures RelationshipAgrees(cr, co, db, r, secrets, keks)
  {
  }

  /** ChangePassword with the genuine current password keeps the database consistent under the changed password. */
  lemma ChangePasswordKeepsConsistency(cr: Crypto, co: Codec, db: Db, secrets: map<string, Secrets>,
                                       keks: map<string, Bytes>, userId: string, currentPassword: string,
                                       changedPassword: string, nonces: string -> Bytes)
    requires Consistent(cr, co, db, secrets, keks)
    requires userId in secrets && secrets[userId].password == currentPassword
    requires ChangePassword(cr, co, db, userId, currentPassword, changedPassword, nonces).Ok?
    ensures Consistent(cr, co, ChangePassword(cr, co, db, userId, currentPassword, changedPassword, nonces).value,
                       secrets[userId := secrets[userId].(password := changedPassword)], keks)
  {
    var db' := ChangePassword(cr, co, db, userId, currentPassword, changedPassword, nonces).value;
    var i := FindUserById(db.users, userId).value;
    var u := db.users[i];
    var sec' := secrets[userId].(password := changedPassword);
    assert co.decode(db'.users[i].hashedPassword) == Some(cr.hashPassword(changedPassword));
    assert forall k :: 0 <= k < |db.users| ==>
      db'.users[k].userId == db.users[k].userId && db'.users[k].hashedEmail == db.users[k].hashedEmail;
    RewrapKeepsConsistency(cr, co, db, db', secrets, keks, i,
      Plan(PasswordSlot, DerivedKey(cr, co, u, currentPassword), PasswordSlot, DerivedKey(cr, co, u, changedPassword), false),
      sec');
  }

  /**
   * ResetPassword with the outstanding token keeps the database consistent
   * under the new password, with no token outstanding any more.
   */
  lemma ResetPasswordKeepsConsistency(cr: Crypto, co: Codec, db: Db, secrets: map<string, Secrets>,
                                      keks: map<string, Bytes>, userId: string, email: string, password: string,
                                      token: Bytes, nonces: string -> Bytes)
    requires Consistent(cr, co, db, secrets, keks)
    requires FindUserById(db.users, userId).Some?
    requires userId in secrets && secrets[userId].email == email && secrets[userId].token == Some(token)
    requires ResetPassword(cr, co, db, email, password, token, nonces).Ok?
    ensures Consistent(cr, co, ResetPassword(cr, co, db, email, password, token, nonces).value,
                       secrets[userId := Secrets(password, email, None)], keks)
  {
    var db' := ResetPassword(cr, co, db, email, password, token, nonces).value;
    var i := FindUserById(db.users, userId).value;
    EmailFindsOwner(cr, co, db, secrets, keks, i, email);
    var u := db.users[i];
    var sec' := Secrets(password, email, None);
    assert co.decode(db'.users[i].hashedPassword) == Some(cr.hashPassword(password));
    assert forall k :: 0 <= k < |db.users| ==>
      db'.users[k].userId == db.users[k].userId && db'.users[k].hashedEmail == db.users[k].hashedEmail;
    RewrapKeepsConsistency(cr, co, db, db', secrets, keks, i,
      Plan(OneTimeSlot, token, PasswordSlot, DerivedKey(cr, co, u, password), true), sec');
  }

  /**
   * ChangeEmail with the genuine password keeps the database consistent
   * under the new email address, provided no other user already holds its
   * hash (the unique index on hashed emails).
   */
  lemma ChangeEmailKeepsConsistency(cr: Crypto, co: Codec, db: Db, secrets: map<string, Secrets>,
                                    keks: map<string, Bytes>, userId: string, emailAddress: string, password: string,
                                    nonces: string -> Bytes)
    requires Consistent(cr, co, db, secrets, keks)
    requires userId in secrets && secrets[userId].password == password
    requires forall k :: 0 <= k < |db.users| && db.users[k].userId != userId ==>
               db.users[k].hashedEmail != HashedEmailOf(cr, co, db, emailAddress)
    requires ChangeEmail(cr, co, db, userId, emailAddress, password, nonces).Ok?
    ensures Consistent(cr, co, ChangeEmail(cr, co, db, userId, emailAddress, password, nonces).value,
                       secrets[userId := secrets[userId].(email := emailAddress)], keks)
  {
    var db' := ChangeEmail(cr, co, db, userId, emailAddress, password, nonces).value;
    var i := FindUserById(db.users, userId).value;
    var u := db.users[i];
    var sec' := secrets[userId].(email := emailAddress);
    assert UniqueKeys(db'.users) by {
      forall a, b | 0 <= a < b < |db'.users|
        ensures db'.users[a].userId != db'.users[b].userId && db'.users[a].hashedEmail != db'.users[b].hashedEmail
      {
        if a != i && b != i {
          assert db'.users[a] == db.users[a] && db'.users[b] == db.users[b];
        }
      }
    }
    RewrapKeepsConsistency(cr, co, db, db', secrets, keks, i,
      Plan(PasswordSlot, DerivedKey(cr, co, u, password), EmailSlot, DerivedKey(cr, co, u, emailAddress), false),
      sec');
  }

  /**
   * GenerateOneTimeKey for the user's own email keeps the database
   * consistent, with the returned token now the outstanding one.
   */
  lemma GenerateOneTimeKeyKeepsConsistency(cr: Crypto, co: Codec, db: Db, secrets: map<string, Secrets>,
                                           keks: map<string, Bytes>, userId: string, email: string, token: Bytes,
                                           nonces: string -> Bytes)
    requires Consistent(cr, co, db, secrets, keks)
    requires FindUserById(db.users, userId).Some?
    requires userId in secrets && secrets[userId].email == email
    requires GenerateOneTimeKey(cr, co, db, email, token, nonces).Ok?
    ensures Consistent(cr, co, GenerateOneTimeKey(cr, co, db, email, token, nonces).value.db,
                       secrets[userId := secrets[userId].(token := Some(token))], keks)
  {
    var db' := GenerateOneTimeKey(cr, co, db, email, token, nonces).value.db;
    var i := FindUserById(db.users, userId).value;
    EmailFindsOwner(cr, co, db, secrets, keks, i, email);
    var u := db.users[i];
    RewrapKeepsConsistency(cr, co, db, db', secrets, keks, i,
      Plan(EmailSlot, DerivedKey(cr, co, u, email), OneTimeSlot, token, false),
      secrets[userId].(token := Some(token)));
  }
}
