/**
 * The key-envelope operations of the relational persistence layer: login,
 * user lookup, password change, password reset, email change and one-time
 * key generation. Each operation reads one wrap of every relationship of a
 * user, recovers the KEK and (for the mutating ones) writes it back into
 * exactly one slot. A failed call yields an error and no database.
 */
module Relational {
  import opened Results
  import opened Primitives
  import opened Wire
  import opened Persistence
  import opened Envelope

  /** The value stored in the hashed-email column for `email`. */
  function HashedEmailOf(cr: Crypto, co: Codec, db: Db, email: string): string
  {
    co.encode(cr.hashEmail(email, db.emailSalt))
  }

  /** The key derived from `secret` (a password or an email address) and the user's salt. */
  function DerivedKey(cr: Crypto, co: Codec, u: AccountUser, secret: string): Bytes
    requires co.decode(u.salt).Some?
  {
    cr.deriveKey(secret, co.decode(u.salt).value)
  }

  /** The stored salt and password hash decode, and `password` matches the hash. */
  ghost predicate Authenticated(cr: Crypto, co: Codec, u: AccountUser, password: string)
  {
    && co.decode(u.salt).Some?
    && co.decode(u.hashedPassword).Some?
    && cr.comparePassword(password, co.decode(u.hashedPassword).value)
  }

  /** The stored password hash decodes and `password` does not match it. */
  ghost predicate Rejected(cr: Crypto, co: Codec, u: AccountUser, password: string)
  {
    co.decode(u.hashedPassword).Some? && !cr.comparePassword(password, co.decode(u.hashedPassword).value)
  }

  /**
   * `e` answers a login for relationship `r`: it carries the relationship's
   * account id, the account's name, and the KEK the password wrap opens to
   * under `key`.
   */
  ghost predicate EntryFor(cr: Crypto, co: Codec, accounts: seq<Account>, key: Bytes, r: Relationship, e: AccountEntry)
  {
    && e.accountId == r.accountId
    && e.keyEncryptionKey.Some?
    && Unwrap(cr, co, r.passwordEncryptedKey, key) == Ok(e.keyEncryptionKey.value)
    && FindAccount(accounts, r.accountId) == Some(Account(r.accountId, e.accountName))
  }

  /** `entries` answers a login for `rows`: one entry per relationship, in order. */
  ghost predicate Unlocked(cr: Crypto, co: Codec, accounts: seq<Account>, key: Bytes,
                           rows: seq<Relationship>, entries: seq<AccountEntry>)
  {
    && |entries| == |rows|
    && forall k :: 0 <= k < |rows| ==> EntryFor(cr, co, accounts, key, rows[k], entries[k])
  }

  /** The password wrap of `r` opens under `key` and the account it names exists. */
  ghost predicate Openable(cr: Crypto, co: Codec, accounts: seq<Account>, key: Bytes, r: Relationship)
  {
    Unwrap(cr, co, r.passwordEncryptedKey, key).Ok? && FindAccount(accounts, r.accountId).Some?
  }

  /** Every relationship of `rows` is openable: the condition for a login to succeed. */
  ghost predicate Unlockable(cr: Crypto, co: Codec, accounts: seq<Account>, key: Bytes, rows: seq<Relationship>)
  {
    forall k :: 0 <= k < |rows| ==> Openable(cr, co, accounts, key, rows[k])
  }

  lemma UnlockableCons(cr: Crypto, co: Codec, accounts: seq<Account>, key: Bytes, r: Relationship, rows: seq<Relationship>)
    ensures Unlockable(cr, co, accounts, key, [r] + rows) <==>
      Openable(cr, co, accounts, key, r) && Unlockable(cr, co, accounts, key, rows)
  {
    var all := [r] + rows;
    assert all[0] == r;
    assert forall k :: 0 <= k < |rows| ==> all[k + 1] == rows[k];
    if Unlockable(cr, co, accounts, key, rows) {
      forall k | 1 <= k < |all|
        ensures Openable(cr, co, accounts, key, all[k])
      {
        assert all[k] == rows[k - 1];
      }
    }
  }

  lemma UnlockedCons(cr: Crypto, co: Codec, accounts: seq<Account>, key: Bytes, r: Relationship, e: AccountEntry,
                     rows: seq<Relationship>, entries: seq<AccountEntry>)
    requires EntryFor(cr, co, accounts, key, r, e)
    requires Unlocked(cr, co, accounts, key, rows, entries)
    ensures Unlocked(cr, co, accounts, key, [r] + rows, [e] + entries)
  {
  }

  /**
   * The per-relationship part of a login: decrypt each password wrap and
   * resolve its account, failing the whole list on the first error.
   */
  function UnlockAll(cr: Crypto, co: Codec, accounts: seq<Account>, key: Bytes, rows: seq<Relationship>)
    : (r: Result<seq<AccountEntry>>)
    ensures r.Ok? <==> Unlockable(cr, co, accounts, key, rows)
    ensures r.Ok? ==> Unlocked(cr, co, accounts, key, rows, r.value)
    decreases |rows|
  {
    if |rows| == 0 then Ok([])
    else
      var kek := Unwrap(cr, co, rows[0].passwordEncryptedKey, key);
      var account := FindAccount(accounts, rows[0].accountId);
      var rest := UnlockAll(cr, co, accounts, key, rows[1..]);
      UnlockableCons(cr, co, accounts, key, rows[0], rows[1..]);
      assert [rows[0]] + rows[1..] == rows;
      if kek.Err? then kek.PropagateFailure()
      else if account.None? then Err(NotFound)
      else if rest.Err? then rest.PropagateFailure()
      else
        var e := AccountEntry(rows[0].accountId, account.value.name, Some(kek.value));
        UnlockedCons(cr, co, accounts, key, rows[0], e, rows[1..], rest.value);
        Ok([e] + rest.value)
  }

  /**
   * Login: find the user by hashed email, check the password, then open
   * every relationship's password wrap under the password-derived key.
   */
  function Login(cr: Crypto, co: Codec, db: Db, email: string, password: string): (r: Result<LoginResult>)
    ensures FindUserByHashedEmail(db.users, HashedEmailOf(cr, co, db, email)).None? ==> r == Err(NotFound)
    ensures r.Ok? ==>
      && FindUserByHashedEmail(db.users, HashedEmailOf(cr, co, db, email)).Some?
      && var u := db.users[FindUserByHashedEmail(db.users, HashedEmailOf(cr, co, db, email)).value];
         && Authenticated(cr, co, u, password)
         && r.value.userId == u.userId
         && Unlocked(cr, co, db.accounts, DerivedKey(cr, co, u, password),
                     RelationshipsOf(db.relationships, u.userId), r.value.accounts)
    ensures FindUserByHashedEmail(db.users, HashedEmailOf(cr, co, db, email)).Some? ==>
      var u := db.users[FindUserByHashedEmail(db.users, HashedEmailOf(cr, co, db, email)).value];
      && (co.decode(u.salt).Some? && Rejected(cr, co, u, password) ==> r == Err(InvalidCredentials))
      && (Authenticated(cr, co, u, password) ==>
            (r.Ok? <==> Unlockable(cr, co, db.accounts, DerivedKey(cr, co, u, password),
                                   RelationshipsOf(db.relationships, u.userId))))
  {
    var i :- Need(FindUserByHashedEmail(db.users, HashedEmailOf(cr, co, db, email)), NotFound);
    var u := db.users[i];
    var salt :- Need(co.decode(u.salt), MalformedField);
    var hash :- Need(co.decode(u.hashedPassword), MalformedField);
    if !cr.comparePassword(password, hash) then Err(InvalidCredentials)
    else
      var key := cr.deriveKey(password, salt);
      var entries :- UnlockAll(cr, co, db.accounts, key, RelationshipsOf(db.relationships, u.userId));
      Ok(LoginResult(u.userId, entries))
  }

  /** The entries of a lookup: account ids only, no name and no key material. */
  function Listing(rows: seq<Relationship>): (entries: seq<AccountEntry>)
  {
    seq(|rows|, k requires 0 <= k < |rows| => AccountEntry(rows[k].accountId, "", None))
  }

  /** LookupUser: the user's id and one key-less entry per relationship. */
  function LookupUser(db: Db, userId: string): (r: Result<LoginResult>)
    ensures r.Err? <==> FindUserById(db.users, userId).None?
    ensures r.Err? ==> r.error == NotFound
    ensures r.Ok? ==>
      && r.value.userId == userId
      && |r.value.accounts| == |RelationshipsOf(db.relationships, userId)|
      && forall k :: 0 <= k < |r.value.accounts| ==>
           && r.value.accounts[k].accountId == RelationshipsOf(db.relationships, userId)[k].accountId
           && r.value.accounts[k].keyEncryptionKey.None?
           && r.value.accounts[k].accountName == ""
  {
    var i :- Need(FindUserById(db.users, userId), NotFound);
    var u := db.users[i];
    Ok(LoginResult(u.userId, Listing(RelationshipsOf(db.relationships, u.userId))))
  }

  /**
   * ChangePassword: check the current password, store the new hash, and
   * re-wrap every password wrap from the current to the changed password's
   * key. The salt, the email wraps and the one-time wraps are kept.
   */
  function ChangePassword(cr: Crypto, co: Codec, db: Db, userId: string, currentPassword: string,
                          changedPassword: string, nonces: string -> Bytes): (r: Result<Db>)
    ensures FindUserById(db.users, userId).None? ==> r == Err(NotFound)
    ensures FindUserById(db.users, userId).Some? ==>
      var i := FindUserById(db.users, userId).value;
      var u := db.users[i];
      && (Rejected(cr, co, u, currentPassword) ==> r == Err(InvalidCredentials))
      && (r.Ok? <==> Authenticated(cr, co, u, currentPassword)
                     && AllOpen(cr, co, db.relationships, userId, PasswordSlot, DerivedKey(cr, co, u, currentPassword)))
      && (r.Ok? ==>
            && r.value == db.(users := db.users[i := u.(hashedPassword := co.encode(cr.hashPassword(changedPassword)))],
                              relationships := r.value.relationships)
            && Rewrapped(cr, co, Plan(PasswordSlot, DerivedKey(cr, co, u, currentPassword),
                                      PasswordSlot, DerivedKey(cr, co, u, changedPassword), false),
                         userId, db.relationships, r.value.relationships))
  {
    var i :- Need(FindUserById(db.users, userId), NotFound);
    var u := db.users[i];
    var hash :- Need(co.decode(u.hashedPassword), MalformedField);
    if !cr.comparePassword(currentPassword, hash) then Err(InvalidCredentials)
    else
      var salt :- Need(co.decode(u.salt), MalformedField);
      var keyFromCurrent := cr.deriveKey(currentPassword, salt);
      var keyFromChanged := cr.deriveKey(changedPassword, salt);
      var user := u.(hashedPassword := co.encode(cr.hashPassword(changedPassword)));
      var rows :- RewrapRows(cr, co, Plan(PasswordSlot, keyFromCurrent, PasswordSlot, keyFromChanged, false),
                             nonces, u.userId, db.relationships);
      Ok(db.(users := db.users[i := user], relationships := rows))
  }

  /**
   * ResetPassword: with the user found by email, open every one-time wrap
   * under the supplied token, wrap the KEK under the new password's key,
   * empty the one-time slot and store the new password hash. No password
   * check takes place; the token is checked only by decryption.
   */
  function ResetPassword(cr: Crypto, co: Codec, db: Db, email: string, password: string,
                         oneTimeKey: Bytes, nonces: string -> Bytes): (r: Result<Db>)
    ensures FindUserByHashedEmail(db.users, HashedEmailOf(cr, co, db, email)).None? ==> r == Err(NotFound)
    ensures FindUserByHashedEmail(db.users, HashedEmailOf(cr, co, db, email)).Some? ==>
      var i := FindUserByHashedEmail(db.users, HashedEmailOf(cr, co, db, email)).value;
      var u := db.users[i];
      && (r.Ok? <==> co.decode(u.salt).Some? && AllOpen(cr, co, db.relationships, u.userId, OneTimeSlot, oneTimeKey))
      && (r.Ok? ==>
            && r.value == db.(users := db.users[i := u.(hashedPassword := co.encode(cr.hashPassword(password)))],
                              relationships := r.value.relationships)
            && Rewrapped(cr, co, Plan(OneTimeSlot, oneTimeKey, PasswordSlot, DerivedKey(cr, co, u, password), true),
                         u.userId, db.relationships, r.value.relationships)
            && forall j :: 0 <= j < |r.value.relationships| && r.value.relationships[j].userId == u.userId ==>
                 r.value.relationships[j].oneTimeEncryptedKey == "")
  {
    var i :- Need(FindUserByHashedEmail(db.users, HashedEmailOf(cr, co, db, email)), NotFound);
    var u := db.users[i];
    var salt :- Need(co.decode(u.salt), MalformedField);
    var passwordKey := cr.deriveKey(password, salt);
    var rows :- RewrapRows(cr, co, Plan(OneTimeSlot, oneTimeKey, PasswordSlot, passwordKey, true),
                           nonces, u.userId, db.relationships);
    var user := u.(hashedPassword := co.encode(cr.hashPassword(password)));
    Ok(db.(users := db.users[i := user], relationships := rows))
  }

  /**
   * ChangeEmail: check the password, store the new hashed email, and re-wrap
   * every password wrap's KEK under the new email's key into the email slot.
   * The password wraps and the one-time wraps are kept.
   */
  function ChangeEmail(cr: Crypto, co: Codec, db: Db, userId: string, emailAddress: string,
                       password: string, nonces: string -> Bytes): (r: Result<Db>)
    ensures FindUserById(db.users, userId).None? ==> r == Err(NotFound)
    ensures FindUserById(db.users, userId).Some? ==>
      var i := FindUserById(db.users, userId).value;
      var u := db.users[i];
      && (Rejected(cr, co, u, password) ==> r == Err(InvalidCredentials))
      && (r.Ok? <==> Authenticated(cr, co, u, password)
                     && AllOpen(cr, co, db.relationships, userId, PasswordSlot, DerivedKey(cr, co, u, password)))
      && (r.Ok? ==>
            && r.value == db.(users := db.users[i := u.(hashedEmail := HashedEmailOf(cr, co, db, emailAddress))],
                              relationships := r.value.relationships)
            && Rewrapped(cr, co, Plan(PasswordSlot, DerivedKey(cr, co, u, password),
                                      EmailSlot, DerivedKey(cr, co, u, emailAddress), false),
                         userId, db.relationships, r.value.relationships))
  {
    var i :- Need(FindUserById(db.users, userId), NotFound);
    var u := db.users[i];
    var hash :- Need(co.decode(u.hashedPassword), MalformedField);
    if !cr.comparePassword(password, hash) then Err(InvalidCredentials)
    else
      var salt :- Need(co.decode(u.salt), MalformedField);
      var keyFromPassword := cr.deriveKey(password, salt);
      var emailKey := cr.deriveKey(emailAddress, salt);
      var user := u.(hashedEmail := co.encode(cr.hashEmail(emailAddress, db.emailSalt)));
      var rows :- RewrapRows(cr, co, Plan(PasswordSlot, keyFromPassword, EmailSlot, emailKey, false),
                             nonces, u.userId, db.relationships);
      Ok(db.(users := db.users[i := user], relationships := rows))
  }

  /** The answer of a one-time key request: the raw token and the updated database. */
  datatype Issued = Issued(token: Bytes, db: Db)

  /**
   * GenerateOneTimeKey: with the user found by email, open every email wrap
   * under the email-derived key and wrap the KEK under the fresh random
   * `token`, replacing any pending one-time wrap. The token is returned and
   * not stored.
   */
  function GenerateOneTimeKey(cr: Crypto, co: Codec, db: Db, email: string, token: Bytes,
                              nonces: string -> Bytes): (r: Result<Issued>)
    ensures FindUserByHashedEmail(db.users, HashedEmailOf(cr, co, db, email)).None? ==> r == Err(NotFound)
    ensures FindUserByHashedEmail(db.users, HashedEmailOf(cr, co, db, email)).Some? ==>
      var u := db.users[FindUserByHashedEmail(db.users, HashedEmailOf(cr, co, db, email)).value];
      && (r.Ok? <==> co.decode(u.salt).Some? && AllOpen(cr, co, db.relationships, u.userId, EmailSlot, DerivedKey(cr, co, u, email)))
      && (r.Ok? ==>
            && r.value.token == token
            && r.value.db == db.(relationships := r.value.db.relationships)
            && Rewrapped(cr, co, Plan(EmailSlot, DerivedKey(cr, co, u, email), OneTimeSlot, token, false),
                         u.userId, db.relationships, r.value.db.relationships))
  {
    var i :- Need(FindUserByHashedEmail(db.users, HashedEmailOf(cr, co, db, email)), NotFound);
    var u := db.users[i];
    var salt :- Need(co.decode(u.salt), MalformedField);
    var emailKey := cr.deriveKey(email, salt);
    var rows :- RewrapRows(cr, co, Plan(EmailSlot, emailKey, OneTimeSlot, token, false),
                           nonces, u.userId, db.relationships);
    Ok(Issued(token, db.(relationships := rows)))
  }
}
