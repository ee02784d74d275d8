/**
 * Properties that relate several calls: what a login recovers from a
 * consistent database, that a password change keeps the login answer, that
 * a reset token works exactly once, and how a lookup relates to a login.
 */
module Properties {
  import opened Results
  import opened Primitives
  import opened Wire
  import opened Persistence
  import opened Envelope
  import opened Relational
  import opened Consistency

  /**
   * Two tables that agree on every row's user id, and whose rows of `userId`
   * are related pairwise by `related`, give relationship lists of the same
   * length related entry by entry.
   */
  lemma {:induction false} RelationshipsOfAligned(rows: seq<Relationship>, rows': seq<Relationship>, userId: string,
                                                  related: (Relationship, Relationship) -> bool)
    requires |rows'| == |rows|
    requires forall j :: 0 <= j < |rows| ==> rows'[j].userId == rows[j].userId
    requires forall j :: 0 <= j < |rows| && rows[j].userId == userId ==> related(rows[j], rows'[j])
    ensures |RelationshipsOf(rows', userId)| == |RelationshipsOf(rows, userId)|
    ensures forall k :: 0 <= k < |RelationshipsOf(rows, userId)| ==>
              related(RelationshipsOf(rows, userId)[k], RelationshipsOf(rows', userId)[k])
    decreases |rows|
  {
    if |rows| > 0 {
      assert forall j :: 0 <= j < |rows| - 1 ==> rows[1..][j] == rows[j + 1] && rows'[1..][j] == rows'[j + 1];
      RelationshipsOfAligned(rows[1..], rows'[1..], userId, related);
      var tail, tail' := RelationshipsOf(rows[1..], userId), RelationshipsOf(rows'[1..], userId);
      if rows[0].userId == userId {
        var mine, mine' := [rows[0]] + tail, [rows'[0]] + tail';
        assert RelationshipsOf(rows, userId) == mine && RelationshipsOf(rows', userId) == mine';
        forall k | 0 <= k < |mine| ensures related(mine[k], mine'[k]) {
          if k > 0 {
            assert mine[k] == tail[k - 1] && mine'[k] == tail'[k - 1];
          }
        }
      }
    }
  }

  /** Two relationship lists whose password wraps open alike unlock to the same answer. */
  lemma {:induction false} UnlockAllAligned(cr: Crypto, co: Codec, accounts: seq<Account>, key: Bytes, key': Bytes,
                                            rows: seq<Relationship>, rows': seq<Relationship>)
    requires |rows'| == |rows|
    requires forall k :: 0 <= k < |rows| ==>
               rows'[k].accountId == rows[k].accountId
               && Unwrap(cr, co, rows'[k].passwordEncryptedKey, key') == Unwrap(cr, co, rows[k].passwordEncryptedKey, key)
    ensures UnlockAll(cr, co, accounts, key', rows') == UnlockAll(cr, co, accounts, key, rows)
    decreases |rows|
  {
    if |rows| > 0 {
      var tail, tail' := rows[1..], rows'[1..];
      forall k | 0 <= k < |tail|
        ensures tail'[k].accountId == tail[k].accountId
        ensures Unwrap(cr, co, tail'[k].passwordEncryptedKey, key') == Unwrap(cr, co, tail[k].passwordEncryptedKey, key)
      {
        assert tail[k] == rows[k + 1] && tail'[k] == rows'[k + 1];
      }
      UnlockAllAligned(cr, co, accounts, key, key', tail, tail');
      assert rows'[0].accountId == rows[0].accountId;
      assert Unwrap(cr, co, rows'[0].passwordEncryptedKey, key') == Unwrap(cr, co, rows[0].passwordEncryptedKey, key);
    }
  }

  /**
   * After a successful password change, logging in with the changed password
   * gives exactly the answer the current password gave before: the same
   * user, accounts, names and KEKs.
   */
  lemma ChangePasswordKeepsLogin(cr: Crypto, co: Codec, db: Db, userId: string, email: string,
                                 currentPassword: string, changedPassword: string, nonces: string -> Bytes)
    requires ChangePassword(cr, co, db, userId, currentPassword, changedPassword, nonces).Ok?
    requires FindUserByHashedEmail(db.users, HashedEmailOf(cr, co, db, email)) == FindUserById(db.users, userId)
    ensures Login(cr, co, ChangePassword(cr, co, db, userId, currentPassword, changedPassword, nonces).value, email, changedPassword)
         == Login(cr, co, db, email, currentPassword)
  {
    var db' := ChangePassword(cr, co, db, userId, currentPassword, changedPassword, nonces).value;
    var i := FindUserById(db.users, userId).value;
    var u := db.users[i];
    var hashed := HashedEmailOf(cr, co, db, email);
    assert forall k :: 0 <= k < |db.users| ==> db'.users[k].hashedEmail == db.users[k].hashedEmail;
    FindUserByHashedEmailStable(db.users, db'.users, hashed);
    assert HashedEmailOf(cr, co, db', email) == hashed;
    assert co.decode(db'.users[i].hashedPassword) == Some(cr.hashPassword(changedPassword));
    var plan := Plan(PasswordSlot, DerivedKey(cr, co, u, currentPassword), PasswordSlot, DerivedKey(cr, co, u, changedPassword), false);
    var related := (a: Relationship, b: Relationship) =>
      b.accountId == a.accountId
      && Unwrap(cr, co, b.passwordEncryptedKey, plan.targetKey) == Unwrap(cr, co, a.passwordEncryptedKey, plan.sourceKey);
    forall j | 0 <= j < |db.relationships|
      ensures db'.relationships[j].userId == db.relationships[j].userId
      ensures db.relationships[j].userId == userId ==> related(db.relationships[j], db'.relationships[j])
    {
      if db.relationships[j].userId == userId {
        assert RowRewrapped(cr, co, plan, db.relationships[j], db'.relationships[j]);
      }
    }
    RelationshipsOfAligned(db.relationships, db'.relationships, userId, related);
    var mine, mine' := RelationshipsOf(db.relationships, userId), RelationshipsOf(db'.relationships, userId);
    UnlockAllAligned(cr, co, db.accounts, plan.sourceKey, plan.targetKey, mine, mine');
  }

  /** The per-relationship step of `LoginRecoversKeks`. */
  lemma OwnRelationshipOpens(cr: Crypto, co: Codec, db: Db, secrets: map<string, Secrets>, keks: map<string, Bytes>,
                             i: nat, r: Relationship)
    requires Consistent(cr, co, db, secrets, keks)
    requires i < |db.users| && r in db.relationships && r.userId == db.users[i].userId
    ensures co.decode(db.users[i].salt).Some? && r.relationshipId in keks
    ensures Unwrap(cr, co, r.passwordEncryptedKey, DerivedKey(cr, co, db.users[i], secrets[r.userId].password))
         == Ok(keks[r.relationshipId])
    ensures Unwrap(cr, co, r.emailEncryptedKey, DerivedKey(cr, co, db.users[i], secrets[r.userId].email))
         == Ok(keks[r.relationshipId])
  {
    var j :| 0 <= j < |db.relationships| && db.relationships[j] == r;
    OwnerIsFound(db.users, i);
    assert RelationshipAgrees(cr, co, db, r, secrets, keks);
    var salt := co.decode(db.users[i].salt).value;
    var sec := secrets[r.userId];
    assert EnvelopeAgrees(cr, co, salt, r, sec, keks[r.relationshipId]);
    assert SlotAgrees(cr, co, salt, r, sec, keks[r.relationshipId], PasswordSlot);
    assert SlotAgrees(cr, co, salt, r, sec, keks[r.relationshipId], EmailSlot);
  }

  /** Each of `rows` has a KEK in `keks`, and its password wrap opens under `key` to that KEK. */
  ghost predicate OpensTo(cr: Crypto, co: Codec, key: Bytes, rows: seq<Relationship>, keks: map<string, Bytes>)
  {
    forall k :: 0 <= k < |rows| ==>
      rows[k].relationshipId in keks && Unwrap(cr, co, rows[k].passwordEncryptedKey, key) == Ok(keks[rows[k].relationshipId])
  }

  /** Every relationship of a user in a consistent database opens under the user's password to its KEK. */
  lemma OwnRelationshipsOpen(cr: Crypto, co: Codec, db: Db, secrets: map<string, Secrets>, keks: map<string, Bytes>,
                             i: nat)
    requires Consistent(cr, co, db, secrets, keks)
    requires i < |db.users| && db.users[i].userId in secrets
    requires forall j :: 0 <= j < |db.relationships| && db.relationships[j].userId == db.users[i].userId ==>
               FindAccount(db.accounts, db.relationships[j].accountId).Some?
    ensures co.decode(db.users[i].salt).Some?
    ensures var key := DerivedKey(cr, co, db.users[i], secrets[db.users[i].userId].password);
            var mine := RelationshipsOf(db.relationships, db.users[i].userId);
            Unlockable(cr, co, db.accounts, key, mine) && OpensTo(cr, co, key, mine, keks)
  {
    var userId := db.users[i].userId;
    var mine := RelationshipsOf(db.relationships, userId);
    var key := DerivedKey(cr, co, db.users[i], secrets[userId].password);
    RelationshipsOfMembers(db.relationships, userId);
    forall k | 0 <= k < |mine|
      ensures Openable(cr, co, db.accounts, key, mine[k])
      ensures mine[k].relationshipId in keks && Unwrap(cr, co, mine[k].passwordEncryptedKey, key) == Ok(keks[mine[k].relationshipId])
    {
      assert mine[k] in mine;
      OwnRelationshipOpens(cr, co, db, secrets, keks, i, mine[k]);
    }
  }

  /** Entries that answer a login for rows that open to `keks` carry exactly those KEKs. */
  lemma UnlockedCarriesKeks(cr: Crypto, co: Codec, accounts: seq<Account>, key: Bytes, rows: seq<Relationship>,
                            entries: seq<AccountEntry>, keks: map<string, Bytes>)
    requires Unlocked(cr, co, accounts, key, rows, entries)
    requires OpensTo(cr, co, key, rows, keks)
    ensures |entries| == |rows|
    ensures forall k :: 0 <= k < |rows| ==>
      && entries[k].accountId == rows[k].accountId
      && rows[k].relationshipId in keks
      && entries[k].keyEncryptionKey == Some(keks[rows[k].relationshipId])
  {
  }

  /** A login whose user authenticates and whose relationships all open answers with the user's id. */
  lemma LoginUnlocks(cr: Crypto, co: Codec, db: Db, email: string, password: string, i: nat)
    requires FindUserByHashedEmail(db.users, HashedEmailOf(cr, co, db, email)) == Some(i)
    requires i < |db.users| && Authenticated(cr, co, db.users[i], password)
    requires Unlockable(cr, co, db.accounts, DerivedKey(cr, co, db.users[i], password),
                        RelationshipsOf(db.relationships, db.users[i].userId))
    ensures var r := Login(cr, co, db, email, password);
            && r.Ok?
            && r.value.userId == db.users[i].userId
            && Unlocked(cr, co, db.accounts, DerivedKey(cr, co, db.users[i], password),
                        RelationshipsOf(db.relationships, db.users[i].userId), r.value.accounts)
  {
  }

  /**
   * In a consistent database a user's own email and password log in, and the
   * answer carries, for each of the user's relationships in order, its
   * account id and its KEK.
   */
  lemma LoginRecoversKeks(cr: Crypto, co: Codec, db: Db, secrets: map<string, Secrets>, keks: map<string, Bytes>,
                          userId: string)
    requires Consistent(cr, co, db, secrets, keks)
    requires FindUserById(db.users, userId).Some? && userId in secrets
    requires forall j :: 0 <= j < |db.relationships| && db.relationships[j].userId == userId ==>
               FindAccount(db.accounts, db.relationships[j].accountId).Some?
    ensures var r := Login(cr, co, db, secrets[userId].email, secrets[userId].password);
            var mine := RelationshipsOf(db.relationships, userId);
            && r.Ok?
            && r.value.userId == userId
            && |r.value.accounts| == |mine|
            && forall k :: 0 <= k < |mine| ==>
                 && r.value.accounts[k].accountId == mine[k].accountId
                 && mine[k].relationshipId in keks
                 && r.value.accounts[k].keyEncryptionKey == Some(keks[mine[k].relationshipId])
  {
    var i := FindUserById(db.users, userId).value;
    var sec := secrets[userId];
    EmailFindsOwner(cr, co, db, secrets, keks, i, sec.email);
    OwnRelationshipsOpen(cr, co, db, secrets, keks, i);
    assert UserAgrees(cr, co, db.emailSalt, db.users[i], sec);
    LoginUnlocks(cr, co, db, sec.email, sec.password, i);
    var r := Login(cr, co, db, sec.email, sec.password);
    UnlockedCarriesKeks(cr, co, db.accounts, DerivedKey(cr, co, db.users[i], sec.password),
                        RelationshipsOf(db.relationships, userId), r.value.accounts, keks);
  }

  /**
   * A one-time key requested with the user's own email opens the way to a
   * reset: the request succeeds, and a reset with the returned token succeeds.
   */
  lemma IssuedTokenResets(cr: Crypto, co: Codec, db: Db, secrets: map<string, Secrets>, keks: map<string, Bytes>,
                          userId: string, token: Bytes, nonces: string -> Bytes, password: string,
                          resetNonces: string -> Bytes)
    requires Consistent(cr, co, db, secrets, keks)
    requires FindUserById(db.users, userId).Some? && userId in secrets
    ensures GenerateOneTimeKey(cr, co, db, secrets[userId].email, token, nonces).Ok?
    ensures ResetPassword(cr, co, GenerateOneTimeKey(cr, co, db, secrets[userId].email, token, nonces).value.db,
                          secrets[userId].email, password, token, resetNonces).Ok?
  {
    var i := FindUserById(db.users, userId).value;
    var u := db.users[i];
    var email := secrets[userId].email;
    EmailFindsOwner(cr, co, db, secrets, keks, i, email);
    var emailKey := DerivedKey(cr, co, u, email);
    forall j | 0 <= j < |db.relationships| && db.relationships[j].userId == userId
      ensures Unwrap(cr, co, SlotOf(db.relationships[j], EmailSlot), emailKey).Ok?
    {
      OwnRelationshipOpens(cr, co, db, secrets, keks, i, db.relationships[j]);
    }
    var issued := GenerateOneTimeKey(cr, co, db, email, token, nonces);
    assert issued.Ok?;
    var db' := issued.value.db;
    assert HashedEmailOf(cr, co, db', email) == HashedEmailOf(cr, co, db, email);
    forall j | 0 <= j < |db'.relationships| && db'.relationships[j].userId == userId
      ensures Unwrap(cr, co, SlotOf(db'.relationships[j], OneTimeSlot), token).Ok?
    {
      assert RowRewrapped(cr, co, Plan(EmailSlot, emailKey, OneTimeSlot, token, false), db.relationships[j], db'.relationships[j]);
    }
  }

  /**
   * A reset consumes the one-time wraps: once it has succeeded, no further
   * reset of a user who has relationships succeeds, whatever token is offered.
   */
  lemma ResetIsOneShot(cr: Crypto, co: Codec, db: Db, email: string, password: string, token: Bytes,
                       nonces: string -> Bytes, password2: string, token2: Bytes, nonces2: string -> Bytes)
    requires ResetPassword(cr, co, db, email, password, token, nonces).Ok?
    requires FindUserByHashedEmail(db.users, HashedEmailOf(cr, co, db, email)).Some?
    requires exists j :: 0 <= j < |db.relationships| &&
               db.relationships[j].userId == db.users[FindUserByHashedEmail(db.users, HashedEmailOf(cr, co, db, email)).value].userId
    ensures ResetPassword(cr, co, ResetPassword(cr, co, db, email, password, token, nonces).value,
                          email, password2, token2, nonces2).Err?
  {
    var db' := ResetPassword(cr, co, db, email, password, token, nonces).value;
    var hashed := HashedEmailOf(cr, co, db, email);
    var i := FindUserByHashedEmail(db.users, hashed).value;
    assert forall k :: 0 <= k < |db.users| ==> db'.users[k].hashedEmail == db.users[k].hashedEmail;
    FindUserByHashedEmailStable(db.users, db'.users, hashed);
    assert HashedEmailOf(cr, co, db', email) == hashed;
    var j :| 0 <= j < |db.relationships| && db.relationships[j].userId == db.users[i].userId;
    var u := db.users[i];
    var userId := u.userId;
    var plan := Plan(OneTimeSlot, token, PasswordSlot, DerivedKey(cr, co, u, password), true);
    assert db'.users == db.users[i := u.(hashedPassword := co.encode(cr.hashPassword(password)))];
    assert db'.users[i].userId == userId;
    assert Rewrapped(cr, co, plan, userId, db.relationships, db'.relationships);
    assert RowRewrapped(cr, co, plan, db.relationships[j], db'.relationships[j]);
    assert db'.relationships[j].userId == userId;
    assert db'.relationships[j].oneTimeEncryptedKey == "";
    assert NoSpace(SlotOf(db'.relationships[j], OneTimeSlot));
    assert Unwrap(cr, co, SlotOf(db'.relationships[j], OneTimeSlot), token2).Err?;
    assert !AllOpen(cr, co, db'.relationships, userId, OneTimeSlot, token2);
  }

  /**
   * The one-time token is checked only by decrypting one-time wraps: a user
   * without relationships is reset with any token at all.
   */
  lemma ResetWithoutRelationshipsIgnoresToken(cr: Crypto, co: Codec, db: Db, email: string, password: string,
                                              token: Bytes, nonces: string -> Bytes)
    requires FindUserByHashedEmail(db.users, HashedEmailOf(cr, co, db, email)).Some?
    requires co.decode(db.users[FindUserByHashedEmail(db.users, HashedEmailOf(cr, co, db, email)).value].salt).Some?
    requires forall j :: 0 <= j < |db.relationships| ==>
               db.relationships[j].userId != db.users[FindUserByHashedEmail(db.users, HashedEmailOf(cr, co, db, email)).value].userId
    ensures ResetPassword(cr, co, db, email, password, token, nonces).Ok?
  {
  }

  /** A lookup of a logged-in user lists the same accounts as the login, in the same order. */
  lemma LookupListsLoginAccounts(cr: Crypto, co: Codec, db: Db, email: string, password: string)
    requires Login(cr, co, db, email, password).Ok?
    ensures var answer := Login(cr, co, db, email, password).value;
            var r := LookupUser(db, answer.userId);
            && r.Ok?
            && |r.value.accounts| == |answer.accounts|
            && forall k :: 0 <= k < |answer.accounts| ==> r.value.accounts[k].accountId == answer.accounts[k].accountId
  {
  }

  /**
   * A wrong password is refused before any relationship or account is read:
   * the answer is the same whatever the relationship and account tables hold.
   */
  lemma LoginRejectsBeforeRelationships(cr: Crypto, co: Codec, db: Db, email: string, password: string,
                                        relationships: seq<Relationship>, accounts: seq<Account>)
    requires FindUserByHashedEmail(db.users, HashedEmailOf(cr, co, db, email)).Some?
    requires var u := db.users[FindUserByHashedEmail(db.users, HashedEmailOf(cr, co, db, email)).value];
             co.decode(u.salt).Some? && Rejected(cr, co, u, password)
    ensures Login(cr, co, db, email, password) == Err(InvalidCredentials)
    ensures Login(cr, co, db.(relationships := relationships, accounts := accounts), email, password) == Err(InvalidCredentials)
  {
  }
}
