# Key envelopes of the relational login store

This project models the key-envelope protocol of `relationalDatabase` in
`server/persistence/relational/login.go`. Each grant of an account to a user
(a relationship) stores the account's key-encryption key (KEK) three times:

- a **password wrap**, under `DeriveKey(password, salt)`;
- an **email wrap**, under `DeriveKey(email, salt)`;
- a **one-time wrap**, under a random token. The empty string means no reset is pending.

Each wrap is stored as `base64(nonce) + " " + base64(ciphertext)`.

The six operations are modelled as pure functions from a database to a
`Result`:

- `Login` opens every password wrap of the user.
- `LookupUser` lists the user's account ids.
- `ChangePassword` re-wraps the password slot.
- `ResetPassword` moves the one-time slot into the password slot and empties the one-time slot.
- `ChangeEmail` re-wraps the password slot's KEK into the email slot.
- `GenerateOneTimeKey` re-wraps the email slot's KEK into the one-time slot.

The cryptography and base64 are abstract. `Primitives.Crypto` and
`Primitives.Codec` are records of functions, and their subset-type constraint
is the law the protocol relies on:

- decryption undoes encryption under the same key and nonce;
- a password matches its own hash;
- decoding undoes encoding;
- an encoding never contains a space.

The modules follow the data flow:

- `Results`: the error type.
- `Primitives`: crypto and codec.
- `Wire`: the space-joined wire form.
- `Persistence`: records and queries.
- `Envelope`: the per-slot unwrap and re-wrap step.
- `Relational`: the six operations.
- `Consistency`: the envelope invariant and its preservation.
- `Properties`: facts that relate several calls.

The central invariant is `Consistency.Consistent`. Every relationship's three
wraps open to the same KEK, each under the key its owner can currently
produce. The empty one-time slot needs no key. User ids and hashed emails are
unique, and every user row matches its password and email. The invariant is
stated relative to a ghost map of each user's secrets (password, email,
outstanding token) and a ghost map of each relationship's KEK. Every
successful mutating operation preserves it, given the user's genuine secrets
(and, for ChangeEmail, a new address whose hash no other user holds).

Three facts about `login.go` shape what the model states:

- The operations write rows one at a time, each as soon as it is ready
  (login.go:144, 161, 219, 228, 272, 288, 340), with no transaction around
  them. The model states what a successful call returns and says nothing
  about the store after a failed one.
- Once a reset has emptied the one-time slots, a second reset indexes the
  second chunk of an empty slot (login.go:202-204), which panics. The model
  reports a malformed-wrap error for every stored value without a space.
- All five split sites (login.go:55-57, 149-151, 202-204, 276-278, 324-326)
  discard the decode errors of the nonce and ciphertext and ignore any chunks
  after the second. `Wire.OpenAsWritten` models that code; the operations use
  the two-token rule of `Wire.Open` instead (see Findings and Left out).

## Model

| member | source | states |
|---|---|---|
| `Wire.Split` | server/persistence/relational/login.go:55 | splitting on the space gives at least one chunk, none containing a space, and joining the chunks with spaces gives back the input |
| `Wire.Seal` | server/persistence/relational/login.go:160 | the stored form of a (nonce, ciphertext) pair splits into exactly the two encoded tokens |
| `Wire.Open` | server/persistence/relational/login.go:149-151 | a value with no space, the empty slot among them, never opens; a value that opens is two space-free tokens that decode to the returned nonce and ciphertext |
| `Wire.SealThenOpen` | server/persistence/relational/login.go:149-160 | wire round trip: opening a sealed pair gives back the same nonce and ciphertext |
| `Wire.OpenAsWritten` | server/persistence/relational/login.go:55-57 | the split as written fails on a value with no space, where the source's index of the second chunk panics, and on every value the two-token rule opens it gives the same nonce and ciphertext as that rule |
| `Wire.TrailingSpaceOpensAsWritten` | server/persistence/relational/login.go:202-204 | a sealed value with a trailing space opens under the split as written but is refused by the two-token rule |
| `Envelope.Unwrap` | server/persistence/relational/login.go:55-62 | opening a slot that has no space fails with a malformed-wrap error before any decryption |
| `Envelope.WrapKey` | server/persistence/relational/login.go:156-160 | a KEK encrypted under a key with any nonce and stored in wire form unwraps under that key to the same KEK |
| `Envelope.WithSlot` | server/persistence/relational/login.go:218 | writing one slot changes that slot only; the row's ids and the other two slots are kept |
| `Envelope.RewrapRow` | server/persistence/relational/login.go:149-160 | re-wrapping one row fails exactly when its source slot does not open; on success the target slot opens under the new key to the KEK the source gave, a consumed source is emptied, and every other slot and id is kept |
| `Envelope.RewrapRows` | server/persistence/relational/login.go:148-164 | re-wrapping a user's rows succeeds exactly when every one of their source slots opens; on success every row of that user is re-wrapped and every other row is unchanged |
| `Persistence.FindUserByHashedEmail` | server/persistence/relational/login.go:19-26 | the lookup by hashed email returns the first matching user row, or nothing exactly when no row matches |
| `Persistence.FindUserById` | server/persistence/relational/login.go:107-112 | the lookup by user id returns the first matching user row, or nothing exactly when no row matches |
| `Persistence.FindAccount` | server/persistence/relational/login.go:68-71 | the account lookup returns a row with the requested id, or nothing exactly when no such row exists |
| `Persistence.RelationshipsOf` | server/persistence/relational/login.go:46-48 | the relationship query returns only rows of the requested user and never more rows than the table holds |
| `Persistence.RelationshipsOfInOrder` | server/persistence/relational/login.go:46-48 | the relationship query is the table filtered by user id in storage order: each entry is the row at a strictly increasing position, and every row of the user is among those positions, so each appears exactly once |
| `Persistence.RelationshipsOfMembers` | server/persistence/relational/login.go:193-195 | a row is among the user's relationships exactly when it is in the table and carries the user's id |
| `Relational.UnlockAll` | server/persistence/relational/login.go:53-79 | the loop over relationships succeeds exactly when every password wrap opens and every account exists; on success it yields one entry per relationship in order, each holding the relationship's account id, the account's name and the decrypted KEK |
| `Relational.Login` | server/persistence/relational/login.go:13-85 | an unknown email gives not-found; a wrong password gives invalid credentials; with the right password the call succeeds exactly when every relationship unlocks; a success names the found user and lists every relationship's account and KEK in order, with no partial list on any failure |
| `Relational.LookupUser` | server/persistence/relational/login.go:87-104 | fails exactly when the user id is unknown; otherwise it gives the user id and one entry per relationship in order, carrying only the account id: no name and no key |
| `Relational.ChangePassword` | server/persistence/relational/login.go:106-166 | a wrong current password gives invalid credentials; success requires the right password and every password wrap opening; the only change to the user row is the new password hash, and every password wrap of the user is re-wrapped from the current to the changed password's key with the salt, email and one-time wraps and other rows kept |
| `Relational.ResetPassword` | server/persistence/relational/login.go:168-232 | succeeds exactly when the user is found by email, the salt decodes and every one-time wrap opens under the token; then the password hash is replaced, each password wrap opens under the new password's key to the KEK the one-time wrap gave, every one-time slot of the user is empty and the email wraps are kept |
| `Relational.ChangeEmail` | server/persistence/relational/login.go:234-293 | a wrong password gives invalid credentials; on success the hashed email becomes the new address's hash and each email wrap opens under the new address's key to the KEK the password wrap gave, with the password and one-time wraps kept |
| `Relational.GenerateOneTimeKey` | server/persistence/relational/login.go:295-345 | succeeds exactly when the user is found by email and every email wrap opens under the email's key; then the token is returned, the user rows are untouched and every one-time slot of the user, pending or not, is replaced by a wrap under the token of the KEK the email wrap gave |
| `Consistency.RewrapKeepsEnvelope` | server/persistence/relational/login.go:148-164 | a row whose three wraps agreed on one KEK still agrees after a re-wrap that reads its source under the old secrets' key and writes its target under the new secrets' key |
| `Consistency.RewrapKeepsConsistency` | server/persistence/relational/login.go:143-164 | replacing one user row and re-wrapping that user's rows by a plan that fits the old and new secrets keeps the whole database envelope-consistent |
| `Consistency.ChangePasswordKeepsConsistency` | server/persistence/relational/login.go:106-166 | a successful password change from the genuine password keeps the database consistent, with the changed password as the user's password |
| `Consistency.ResetPasswordKeepsConsistency` | server/persistence/relational/login.go:168-232 | a successful reset with the outstanding token keeps the database consistent under the new password, with no token outstanding |
| `Consistency.ChangeEmailKeepsConsistency` | server/persistence/relational/login.go:234-293 | a successful email change with the genuine password keeps the database consistent under the new address, provided no other user holds its hash |
| `Consistency.GenerateOneTimeKeyKeepsConsistency` | server/persistence/relational/login.go:295-345 | a successful one-time key request for the user's own email keeps the database consistent, with the returned token outstanding |
| `Properties.LoginRecoversKeks` | server/persistence/relational/login.go:53-84 | in a consistent database a user's own email and password log in, and the answer lists every relationship of the user in order with its account id and its KEK |
| `Properties.ChangePasswordKeepsLogin` | server/persistence/relational/login.go:142-160 | after a successful password change, logging in with the changed password gives exactly the answer the current password gave before |
| `Properties.IssuedTokenResets` | server/persistence/relational/login.go:319-344 | in a consistent database a one-time key requested with the user's own email is issued, and a reset with the returned token then succeeds |
| `Properties.ResetIsOneShot` | server/persistence/relational/login.go:201-218 | after a successful reset, no second reset of a user with relationships succeeds, whatever token is offered |
| `Properties.ResetWithoutRelationshipsIgnoresToken` | server/persistence/relational/login.go:193-222 | the token is checked only by decrypting one-time wraps, so a user with no relationships is reset with any token |
| `Properties.LookupListsLoginAccounts` | server/persistence/relational/login.go:94-103 | a lookup of a logged-in user lists the same account ids as the login, in the same order |
| `Properties.LoginRejectsBeforeRelationships` | server/persistence/relational/login.go:37-51 | a wrong password is refused with invalid credentials whatever the relationship and account tables hold, so neither table is read before the password check |

## Left out

- Cryptography: `HashEmail`, `HashPassword`, `ComparePassword`, `DeriveKey`, `EncryptWith` and `DecryptWith` are abstract functions. Only the laws listed above are assumed of them. `HashPassword` is deterministic here, while the real one salts each hash.
- Failures of the primitives themselves: errors from `HashEmail`, `DeriveKey`, `EncryptWith` and `HashPassword` are not modelled. These functions always succeed here.
- `jwk.New` (login.go:63-66) is treated as the identity on KEK bytes, and its error is not modelled.
- Randomness: each fresh encryption nonce comes from a `nonces` parameter indexed by relationship id. `GenerateRandomValue` and the base64 round trip of its result (login.go:319-320) are replaced by the `token` parameter of `GenerateOneTimeKey`.
- Storage: the database queries and updates are pure lookups in sequences. A table is a sequence in storage order, a lookup returns the first matching row, and storage errors are not modelled. The tables are sequences rather than maps so that the order of a login answer is defined.
- Relational.ChangePassword: a failed call yields only an error and no database. In the source, a call that fails inside the relationship loop (login.go:148-164) has already stored the new password hash (login.go:144) and every relationship re-wrapped before the failing one (login.go:161); a call that fails earlier (login.go:110-141), a wrong current password among them, has stored nothing. The contracts say nothing about the store after a failed call.
- Relational.ChangeEmail: likewise, a call that fails inside the relationship loop (login.go:275-291) has already stored the new hashed email (login.go:272) and the earlier re-wrapped relationships (login.go:288) in the source; one that fails before the write at login.go:272 has stored nothing.
- Relational.ResetPassword: likewise, a call that fails inside the relationship loop (login.go:201-222) has already stored the earlier relationships with new password wraps and emptied one-time slots (login.go:219), but not the new password hash, which is written only after the loop (login.go:228); one that fails before the loop has stored nothing.
- Relational.GenerateOneTimeKey: likewise, a call that fails inside the relationship loop (login.go:323-343) has already stored the earlier relationships with new one-time wraps (login.go:340); one that fails before the loop has stored nothing, and the user row is never written.
- Envelope.Unwrap: it opens a slot by the two-token rule of `Wire.Open`, so Login, ChangePassword, ResetPassword, ChangeEmail and GenerateOneTimeKey refuse with a malformed-wrap error some stored values that `login.go` opens: values with chunks after the second (such as a sealed value followed by a space), and values whose tokens do not decode, where the source decrypts the partially decoded bytes. The server never writes either kind itself; `Wire.OpenAsWritten` models the source's reading.
- Properties.ResetIsOneShot: the second reset is stated to fail. In the source, indexing the second chunk of the emptied slot panics rather than returning an error. Every wrap with no space is modelled as a malformed-wrap error in the same way.
- Error texts and error wrapping are reduced to five error kinds.
- Login's lookup of the account name runs after the decryption of the same relationship (login.go:59-71). The model keeps that order, but a failure of either aborts the call with an error kind only.
- The account user's other columns, the HTTP handlers that call these operations, and the client-side decryption of account data are not part of this model.

## Findings

| source | as written | input that shows it | evidently intended | confidence | as-written member | corrected member |
|---|---|---|---|---|---|---|
| server/persistence/relational/login.go:55-57 (likewise 149-151, 202-204, 276-278, 324-326) | the stored wrap is split on spaces and `chunks[0]`, `chunks[1]` are used whatever the chunk count, with decoding errors discarded | the sealed value of any pair followed by one space, `base64(nonce) + " " + base64(ct) + " "`, splits into three chunks and still opens | a stored wrap opens only when it is exactly two tokens that both decode | low; not executed, and the server never writes such a value itself | `Wire.OpenAsWritten`, `Wire.TrailingSpaceOpensAsWritten` | `Wire.Open`, `Wire.SealThenOpen` |
