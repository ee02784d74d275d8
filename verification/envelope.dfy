/**
 * The shared step of every mutating operation: open one wrap of a
 * relationship's key-encryption key (KEK) and write it again, under another
 * key, into one slot. The three wraps are addressed by a `Slot` tag rather
 * than by three copies of the same code.
 */
module Envelope {
  import opened Results
  import opened Primitives
  import opened Wire
  import opened Persistence

  /** The three places a relationship keeps its KEK. */
  datatype Slot = PasswordSlot | EmailSlot | OneTimeSlot

  function SlotOf(r: Relationship, slot: Slot): string
  {
    match slot
    case PasswordSlot => r.passwordEncryptedKey
    case EmailSlot => r.emailEncryptedKey
    case OneTimeSlot => r.oneTimeEncryptedKey
  }

  /** Writes one slot; the identity of the row and the other two slots are kept. */
  function WithSlot(r: Relationship, slot: Slot, wire: string): (r': Relationship)
    ensures SlotOf(r', slot) == wire
    ensures forall other :: other != slot ==> SlotOf(r', other) == SlotOf(r, other)
    ensures r'.relationshipId == r.relationshipId && r'.userId == r.userId && r'.accountId == r.accountId
  {
    match slot
    case PasswordSlot => r.(passwordEncryptedKey := wire)
    case EmailSlot => r.(emailEncryptedKey := wire)
    case OneTimeSlot => r.(oneTimeEncryptedKey := wire)
  }

  /**
   * Opens a stored wrap and decrypts it under `key`. A value without a space,
   * the cleared one-time slot among them, never yields a KEK.
   */
  function Unwrap(cr: Crypto, co: Codec, wire: string, key: Bytes): (r: Result<Bytes>)
    ensures NoSpace(wire) ==> r == Err(MalformedWrap)
  {
    var w :- Open(co, wire);
    match cr.decryptWith(key, w.ciphertext, w.nonce)
    case Some(kek) => Ok(kek)
    case None => Err(EnvelopeError)
  }

  /** Encrypts a KEK under `key` with a fresh nonce and encodes it for storage. */
  function WrapKey(cr: Crypto, co: Codec, key: Bytes, kek: Bytes, nonce: Bytes): (wire: string)
    ensures Unwrap(cr, co, wire, key) == Ok(kek)
  {
    var w := Wrap(nonce, cr.encryptWith(key, kek, nonce));
    SealThenOpen(co, w);
    Seal(co, w)
  }

  /**
   * A re-wrap: read `source` under `sourceKey`, write `target` under
   * `targetKey`; with `consumesSource` the source slot is emptied as well.
   */
  datatype Plan = Plan(source: Slot, sourceKey: Bytes, target: Slot, targetKey: Bytes, consumesSource: bool)

  /**
   * `r'` is `r` re-wrapped by `plan`: the source wrap opened, the new target
   * wrap opens to the same KEK, the consumed source is empty, every other slot
   * and the row's identity are unchanged.
   */
  ghost predicate RowRewrapped(cr: Crypto, co: Codec, plan: Plan, r: Relationship, r': Relationship)
  {
    && r'.relationshipId == r.relationshipId && r'.userId == r.userId && r'.accountId == r.accountId
    && Unwrap(cr, co, SlotOf(r, plan.source), plan.sourceKey).Ok?
    && Unwrap(cr, co, SlotOf(r', plan.target), plan.targetKey) == Unwrap(cr, co, SlotOf(r, plan.source), plan.sourceKey)
    && (plan.consumesSource && plan.source != plan.target ==> SlotOf(r', plan.source) == "")
    && (forall slot :: slot != plan.target && !(plan.consumesSource && slot == plan.source) ==>
          SlotOf(r', slot) == SlotOf(r, slot))
  }

  /** Re-wraps one relationship; fails exactly when the source wrap does not open. */
  function RewrapRow(cr: Crypto, co: Codec, plan: Plan, nonces: string -> Bytes, r: Relationship): (res: Result<Relationship>)
    ensures res.Ok? <==> Unwrap(cr, co, SlotOf(r, plan.source), plan.sourceKey).Ok?
    ensures res.Ok? ==> RowRewrapped(cr, co, plan, r, res.value)
  {
    var kek :- Unwrap(cr, co, SlotOf(r, plan.source), plan.sourceKey);
    var cleared := if plan.consumesSource then WithSlot(r, plan.source, "") else r;
    Ok(WithSlot(cleared, plan.target, WrapKey(cr, co, plan.targetKey, kek, nonces(r.relationshipId))))
  }

  /** Every relationship row of `userId` has a source wrap that opens under the plan's key. */
  ghost predicate AllOpen(cr: Crypto, co: Codec, rows: seq<Relationship>, userId: string, source: Slot, key: Bytes)
  {
    forall j :: 0 <= j < |rows| && rows[j].userId == userId ==> Unwrap(cr, co, SlotOf(rows[j], source), key).Ok?
  }

  /** `rows'` is `rows` with every row of `userId` re-wrapped by `plan` and every other row untouched. */
  ghost predicate Rewrapped(cr: Crypto, co: Codec, plan: Plan, userId: string, rows: seq<Relationship>, rows': seq<Relationship>)
  {
    && |rows'| == |rows|
    && forall j :: 0 <= j < |rows| ==>
         if rows[j].userId == userId then RowRewrapped(cr, co, plan, rows[j], rows'[j]) else rows'[j] == rows[j]
  }

  lemma AllOpenCons(cr: Crypto, co: Codec, r: Relationship, rows: seq<Relationship>, userId: string, source: Slot, key: Bytes)
    ensures AllOpen(cr, co, [r] + rows, userId, source, key) <==>
      (r.userId == userId ==> Unwrap(cr, co, SlotOf(r, source), key).Ok?) && AllOpen(cr, co, rows, userId, source, key)
  {
    var all := [r] + rows;
    assert forall j :: 0 <= j < |rows| ==> all[j + 1] == rows[j];
    if AllOpen(cr, co, rows, userId, source, key) && (r.userId == userId ==> Unwrap(cr, co, SlotOf(r, source), key).Ok?) {
      forall j | 0 <= j < |all| && all[j].userId == userId
        ensures Unwrap(cr, co, SlotOf(all[j], source), key).Ok?
      {
        if j > 0 {
          assert all[j] == rows[j - 1];
        }
      }
    }
    if AllOpen(cr, co, all, userId, source, key) {
      assert all[0] == r;
      forall j | 0 <= j < |rows| && rows[j].userId == userId
        ensures Unwrap(cr, co, SlotOf(rows[j], source), key).Ok?
      {
        assert all[j + 1] == rows[j];
      }
    }
  }

  lemma RewrappedCons(cr: Crypto, co: Codec, plan: Plan, userId: string, r: Relationship, r': Relationship,
                      rows: seq<Relationship>, rows': seq<Relationship>)
    requires if r.userId == userId then RowRewrapped(cr, co, plan, r, r') else r' == r
    requires Rewrapped(cr, co, plan, userId, rows, rows')
    ensures Rewrapped(cr, co, plan, userId, [r] + rows, [r'] + rows')
  {
    var all, all' := [r] + rows, [r'] + rows';
    forall j | 0 <= j < |all|
      ensures if all[j].userId == userId then RowRewrapped(cr, co, plan, all[j], all'[j]) else all'[j] == all[j]
    {
      if j > 0 {
        assert all[j] == rows[j - 1] && all'[j] == rows'[j - 1];
      }
    }
  }

  /**
   * Re-wraps every relationship row of one user, in storage order, stopping
   * at the first row whose source wrap does not open.
   */
  function RewrapRows(cr: Crypto, co: Codec, plan: Plan, nonces: string -> Bytes, userId: string, rows: seq<Relationship>)
    : (res: Result<seq<Relationship>>)
    ensures res.Ok? <==> AllOpen(cr, co, rows, userId, plan.source, plan.sourceKey)
    ensures res.Ok? ==> Rewrapped(cr, co, plan, userId, rows, res.value)
    decreases |rows|
  {
    if |rows| == 0 then Ok([])
    else
      var head := if rows[0].userId == userId then RewrapRow(cr, co, plan, nonces, rows[0]) else Ok(rows[0]);
      var tail := RewrapRows(cr, co, plan, nonces, userId, rows[1..]);
      AllOpenCons(cr, co, rows[0], rows[1..], userId, plan.source, plan.sourceKey);
      assert [rows[0]] + rows[1..] == rows;
      if head.Err? then head.PropagateFailure()
      else if tail.Err? then tail.PropagateFailure()
      else
        RewrappedCons(cr, co, plan, userId, rows[0], head.value, rows[1..], tail.value);
        Ok([head.value] + tail.value)
  }
}
