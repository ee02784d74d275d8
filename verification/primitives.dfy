/**
 * The foreign primitives the key-envelope protocol relies on, kept abstract.
 *
 * The cryptographic helpers (email hashing, password hashing and comparison,
 * key derivation, authenticated encryption) and the base64 codec are function
 * values. All the model assumes of them is stated as the constraint of the
 * subset types `Crypto` and `Codec`: decryption undoes encryption under the
 * same key and nonce, a password matches its own hash, decoding undoes
 * encoding, and an encoded token never contains a space. Key derivation is
 * deterministic because it is a function.
 */
module Primitives {
  import opened Results

  type Bytes = seq<bv8>

  datatype CryptoFns = CryptoFns(
    hashEmail: (string, Bytes) -> Bytes,          // (email, server email salt) -> hashed email
    hashPassword: string -> Bytes,                // password -> stored password hash
    comparePassword: (string, Bytes) -> bool,     // (password, stored hash) -> matches
    deriveKey: (string, Bytes) -> Bytes,          // (secret text, user salt) -> symmetric key
    encryptWith: (Bytes, Bytes, Bytes) -> Bytes,  // (key, plaintext, nonce) -> ciphertext
    decryptWith: (Bytes, Bytes, Bytes) -> Option<Bytes>  // (key, ciphertext, nonce) -> plaintext
  )

  /** The laws of the crypto collaborator: the encryption round trip and hash/compare agreement. */
  ghost predicate LawfulCrypto(c: CryptoFns) {
    && (forall k, m, n :: c.decryptWith(k, c.encryptWith(k, m, n), n) == Some(m))
    && (forall p :: c.comparePassword(p, c.hashPassword(p)))
  }

  type Crypto = c: CryptoFns | LawfulCrypto(c)
    witness CryptoFns((e, s) => s, p => [], (p, h) => true, (p, s) => s, (k, m, n) => m, (k, ct, n) => Some(ct))

  datatype CodecFns = CodecFns(
    encode: Bytes -> string,        // standard base64 encoding
    decode: string -> Option<Bytes>,// standard base64 decoding; None on malformed input
    decodePartial: string -> Bytes  // the bytes the decoder hands back alongside an error
  )

  /** The laws of the base64 codec: decoding undoes encoding, and the alphabet has no space. */
  ghost predicate LawfulCodec(c: CodecFns) {
    && (forall b :: c.decode(c.encode(b)) == Some(b))
    && (forall b :: ' ' !in c.encode(b))
  }

  type Codec = c: CodecFns | LawfulCodec(c) witness OffsetCodec()

  // A concrete codec showing that the laws can be met: each byte becomes one
  // character from U+0100..U+01FF, a range that holds no space.

  function Offset(b: Bytes): (s: string)
    ensures |s| == |b|
  {
    if |b| == 0 then [] else [(b[0] as int + 0x100) as char] + Offset(b[1..])
  }

  function Unoffset(s: string): (r: Option<Bytes>)
  {
    if |s| == 0 then Some([])
    else if 0x100 <= s[0] as int < 0x200 then
      match Unoffset(s[1..])
      case Some(rest) => Some([(s[0] as int - 0x100) as bv8] + rest)
      case None => None
    else None
  }

  lemma {:induction false} OffsetRoundTrip(b: Bytes)
    ensures Unoffset(Offset(b)) == Some(b)
    ensures ' ' !in Offset(b)
  {
    if |b| > 0 {
      OffsetRoundTrip(b[1..]);
      var head := (b[0] as int + 0x100) as char;
      var s := Offset(b);
      assert s == [head] + Offset(b[1..]);
      assert s[0] == head && s[1..] == Offset(b[1..]);
      assert (head as int - 0x100) as bv8 == b[0];
      assert Unoffset(s) == Some([b[0]] + b[1..]);
      assert [b[0]] + b[1..] == b;
    }
  }

  function OffsetCodec(): (c: CodecFns)
    ensures LawfulCodec(c)
  {
    var c := CodecFns(Offset, Unoffset, s => []);
    assert forall b :: c.decode(c.encode(b)) == Some(b) && ' ' !in c.encode(b) by {
      forall b: Bytes ensures c.decode(c.encode(b)) == Some(b) && ' ' !in c.encode(b) {
        OffsetRoundTrip(b);
      }
    }
    c
  }
}
