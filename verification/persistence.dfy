/**
 * The records the envelope operations read and write, and the queries they
 * run against them. A table is a sequence of rows in the order the store
 * returns them; a lookup returns the first matching row, a relationship query
 * all matching rows in that order.
 */
module Persistence {
  import opened Results
  import opened Primitives

  /** One login identity. Salt and password hash are stored base64-encoded. */
  datatype AccountUser = AccountUser(
    userId: string,
    hashedEmail: string,    // base64 of HashEmail(email, server email salt)
    salt: string,           // base64 of the per-user salt used for every derived key
    hashedPassword: string  // base64 of HashPassword(password)
  )

  /**
   * One (user, account) grant. The account's key-encryption key is stored
   * three times, each in wire form: under the password-derived key, under the
   * email-derived key, and under a one-time token ("" when no reset is pending).
   */
  datatype Relationship = Relationship(
    relationshipId: string,
    userId: string,
    accountId: string,
    passwordEncryptedKey: string,
    emailEncryptedKey: string,
    oneTimeEncryptedKey: string
  )

  datatype Account = Account(accountId: string, name: string)

  /** The database as seen by the envelope operations, with the server-wide email salt. */
  datatype Db = Db(
    emailSalt: Bytes,
    users: seq<AccountUser>,
    relationships: seq<Relationship>,
    accounts: seq<Account>
  )

  /** One entry of a login answer; a lookup fills only the account id. */
  datatype AccountEntry = AccountEntry(accountId: string, accountName: string, keyEncryptionKey: Option<Bytes>)

  datatype LoginResult = LoginResult(userId: string, accounts: seq<AccountEntry>)

  /** The position of the first row that matches, or None when no row does. */
  function FirstIndex<T>(rows: seq<T>, matches: T -> bool): (r: Option<nat>)
    ensures r.Some? ==> r.value < |rows| && matches(rows[r.value])
    ensures r.Some? ==> forall j :: 0 <= j < r.value ==> !matches(rows[j])
    ensures r.None? <==> forall j :: 0 <= j < |rows| ==> !matches(rows[j])
  {
    if |rows| == 0 then None
    else if matches(rows[0]) then Some(0)
    else
      match FirstIndex(rows[1..], matches)
      case None => None
      case Some(k) => Some(k + 1)
  }

  function FindUserById(users: seq<AccountUser>, userId: string): (r: Option<nat>)
    ensures r.Some? ==> r.value < |users| && users[r.value].userId == userId
    ensures r.Some? ==> forall j :: 0 <= j < r.value ==> users[j].userId != userId
    ensures r.None? <==> forall j :: 0 <= j < |users| ==> users[j].userId != userId
  {
    FirstIndex(users, (u: AccountUser) => u.userId == userId)
  }

  function FindUserByHashedEmail(users: seq<AccountUser>, hashedEmail: string): (r: Option<nat>)
    ensures r.Some? ==> r.value < |users| && users[r.value].hashedEmail == hashedEmail
    ensures r.Some? ==> forall j :: 0 <= j < r.value ==> users[j].hashedEmail != hashedEmail
    ensures r.None? <==> forall j :: 0 <= j < |users| ==> users[j].hashedEmail != hashedEmail
  {
    FirstIndex(users, (u: AccountUser) => u.hashedEmail == hashedEmail)
  }

  function FindAccount(accounts: seq<Account>, accountId: string): (r: Option<Account>)
    ensures r.Some? ==> r.value in accounts && r.value.accountId == accountId
    ensures r.None? <==> forall j :: 0 <= j < |accounts| ==> accounts[j].accountId != accountId
  {
    match FirstIndex(accounts, (a: Account) => a.accountId == accountId)
    case Some(i) => Some(accounts[i])
    case None => None
  }

  /** All relationship rows of one user, in storage order. */
  function RelationshipsOf(rows: seq<Relationship>, userId: string): (mine: seq<Relationship>)
    ensures |mine| <= |rows|
    ensures forall k :: 0 <= k < |mine| ==> mine[k].userId == userId
  {
    if |rows| == 0 then []
    else
      var rest := RelationshipsOf(rows[1..], userId);
      if rows[0].userId == userId then [rows[0]] + rest else rest
  }

  /** The user's relationships are exactly the rows carrying the user's id. */
  lemma {:induction false} RelationshipsOfMembers(rows: seq<Relationship>, userId: string)
    ensures forall r :: r in RelationshipsOf(rows, userId) <==> r in rows && r.userId == userId
  {
    if |rows| > 0 {
      RelationshipsOfMembers(rows[1..], userId);
      assert rows == [rows[0]] + rows[1..];
    }
  }

  /**
   * `mine` is `rows` filtered by user id with storage order kept: `idx` lists,
   * in increasing order, the position of each entry of `mine` in `rows`, and
   * every row of `userId` is among those positions.
   */
  ghost predicate Picks(rows: seq<Relationship>, userId: string, idx: seq<nat>, mine: seq<Relationship>)
  {
    && |idx| == |mine|
    && (forall a, b :: 0 <= a < b < |idx| ==> idx[a] < idx[b])
    && (forall k :: 0 <= k < |idx| ==> idx[k] < |rows| && mine[k] == rows[idx[k]])
    && (forall j :: 0 <= j < |rows| && rows[j].userId == userId ==> j in idx)
  }

  /**
   * The user's relationships are the user's rows in storage order, each once:
   * together with every entry carrying `userId`, this fixes the list.
   */
  lemma RelationshipsOfInOrder(rows: seq<Relationship>, userId: string)
    ensures exists idx: seq<nat> :: Picks(rows, userId, idx, RelationshipsOf(rows, userId))
  {
    var idx := PositionsOf(rows, userId);
  }

  /** The positions that `RelationshipsOf` picks, built alongside it. */
  lemma {:induction false} PositionsOf(rows: seq<Relationship>, userId: string) returns (idx: seq<nat>)
    ensures Picks(rows, userId, idx, RelationshipsOf(rows, userId))
  {
    if |rows| == 0 {
      idx := [];
    } else {
      var later := PositionsOf(rows[1..], userId);
      if rows[0].userId == userId {
        PicksCons(rows, userId, later, RelationshipsOf(rows[1..], userId));
        idx := [0] + Shift(later);
      } else {
        PicksSkip(rows, userId, later, RelationshipsOf(rows[1..], userId));
        idx := Shift(later);
      }
    }
  }

  /** Every position moved one row down. */
  function Shift(idx: seq<nat>): (r: seq<nat>)
    ensures |r| == |idx| && forall k :: 0 <= k < |idx| ==> r[k] == idx[k] + 1
  {
    seq(|idx|, k requires 0 <= k < |idx| => idx[k] + 1)
  }

  /** A first row of another user is skipped: the positions just move down one row. */
  lemma PicksSkip(rows: seq<Relationship>, userId: string, idx: seq<nat>, mine: seq<Relationship>)
    requires |rows| > 0 && rows[0].userId != userId
    requires Picks(rows[1..], userId, idx, mine)
    ensures Picks(rows, userId, Shift(idx), mine)
  {
    var w := Shift(idx);
    forall k | 0 <= k < |w|
      ensures w[k] < |rows| && mine[k] == rows[w[k]]
    {
      assert rows[1..][idx[k]] == rows[idx[k] + 1];
    }
    forall j | 0 <= j < |rows| && rows[j].userId == userId
      ensures j in w
    {
      assert rows[1..][j - 1] == rows[j];
      assert j - 1 in idx;
      var k :| 0 <= k < |idx| && idx[k] == j - 1;
      assert w[k] == j;
    }
  }

  /** A first row of the user comes first, at position 0, before the rest moved down one row. */
  lemma PicksCons(rows: seq<Relationship>, userId: string, idx: seq<nat>, mine: seq<Relationship>)
    requires |rows| > 0 && rows[0].userId == userId
    requires Picks(rows[1..], userId, idx, mine)
    ensures Picks(rows, userId, [0] + Shift(idx), [rows[0]] + mine)
  {
    var w := [0] + Shift(idx);
    assert w[0] == 0;
    assert forall k :: 1 <= k < |w| ==> w[k] == idx[k - 1] + 1;
    ConsPositions(rows, idx, mine, w);
    ConsComplete(rows, userId, idx, w);
  }

  /** The positions of a consed pick point at its entries and increase. */
  lemma ConsPositions(rows: seq<Relationship>, idx: seq<nat>, mine: seq<Relationship>, w: seq<nat>)
    requires |rows| > 0 && |idx| == |mine| && |w| == |idx| + 1 && w[0] == 0
    requires forall k :: 1 <= k < |w| ==> w[k] == idx[k - 1] + 1
    requires forall a, b :: 0 <= a < b < |idx| ==> idx[a] < idx[b]
    requires forall k :: 0 <= k < |idx| ==> idx[k] < |rows[1..]| && mine[k] == rows[1..][idx[k]]
    ensures forall a, b :: 0 <= a < b < |w| ==> w[a] < w[b]
    ensures forall k :: 0 <= k < |w| ==> w[k] < |rows| && ([rows[0]] + mine)[k] == rows[w[k]]
  {
    var all := [rows[0]] + mine;
    forall k | 0 <= k < |w|
      ensures w[k] < |rows| && all[k] == rows[w[k]]
    {
      if k > 0 {
        assert all[k] == mine[k - 1];
        assert rows[1..][idx[k - 1]] == rows[idx[k - 1] + 1];
      }
    }
  }

  /** Every row of the user is among the positions of a consed pick. */
  lemma ConsComplete(rows: seq<Relationship>, userId: string, idx: seq<nat>, w: seq<nat>)
    requires |rows| > 0 && |w| == |idx| + 1 && w[0] == 0
    requires forall k :: 1 <= k < |w| ==> w[k] == idx[k - 1] + 1
    requires forall j :: 0 <= j < |rows[1..]| && rows[1..][j].userId == userId ==> j in idx
    ensures forall j :: 0 <= j < |rows| && rows[j].userId == userId ==> j in w
  {
    forall j | 0 < j < |rows| && rows[j].userId == userId
      ensures j in w
    {
      assert rows[1..][j - 1] == rows[j];
      var k :| 0 <= k < |idx| && idx[k] == j - 1;
      assert w[k + 1] == j;
    }
  }

  /**
   * Rewriting rows so that every position keeps its user id leaves every
   * lookup by user id pointing at the same position.
   */
  lemma FindUserByIdStable(users: seq<AccountUser>, users': seq<AccountUser>, userId: string)
    requires |users'| == |users|
    requires forall j :: 0 <= j < |users| ==> users'[j].userId == users[j].userId
    ensures FindUserById(users', userId) == FindUserById(users, userId)
  {
  }

  /** The same for lookups by hashed email. */
  lemma FindUserByHashedEmailStable(users: seq<AccountUser>, users': seq<AccountUser>, hashedEmail: string)
    requires |users'| == |users|
    requires forall j :: 0 <= j < |users| ==> users'[j].hashedEmail == users[j].hashedEmail
    ensures FindUserByHashedEmail(users', hashedEmail) == FindUserByHashedEmail(users, hashedEmail)
  {
  }
}
