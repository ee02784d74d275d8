/**
 * The wire form of a wrapped key: `base64(nonce) + " " + base64(ciphertext)`,
 * opened again by splitting on the space (Go's `strings.Split(s, " ")`) and
 * decoding both tokens.
 */
module Wire {
  import opened Results
  import opened Primitives

  predicate NoSpace(s: string) {
    ' ' !in s
  }

  /** Joins chunks with one space between neighbours; the inverse of `Split`. */
  function Join(chunks: seq<string>): string
  {
    if |chunks| == 0 then ""
    else if |chunks| == 1 then chunks[0]
    else chunks[0] + " " + Join(chunks[1..])
  }

  /**
   * Splits on every space, keeping empty chunks, like `strings.Split(s, " ")`:
   * the empty string yields one empty chunk.
   */
  function Split(s: string): (chunks: seq<string>)
    ensures |chunks| >= 1
    ensures Join(chunks) == s
    ensures forall k :: 0 <= k < |chunks| ==> NoSpace(chunks[k])
    decreases |s|
  {
    if |s| == 0 then [""]
    else
      var rest := Split(s[1..]);
      if s[0] == ' ' then
        assert Join([""] + rest) == " " + Join(rest);
        [""] + rest
      else
        var chunks := [[s[0]] + rest[0]] + rest[1..];
        assert Join(chunks) == [s[0]] + Join(rest) by {
          if |rest| > 1 {
            assert chunks[1..] == rest[1..];
            assert Join(rest) == rest[0] + " " + Join(rest[1..]);
          }
        }
        assert [s[0]] + s[1..] == s;
        chunks
  }

  /** A value without a space is a single chunk. */
  lemma SplitSpaceFree(a: string)
    requires NoSpace(a)
    ensures Split(a) == [a]
  {
  }

  /** A space-free token, a space and a rest split into the token followed by the split of the rest. */
  lemma {:induction false} SplitFirstToken(a: string, b: string)
    requires NoSpace(a)
    ensures Split(a + " " + b) == [a] + Split(b)
    decreases |a|
  {
    var s := a + " " + b;
    if |a| == 0 {
      assert s[1..] == b;
    } else {
      assert s[1..] == a[1..] + " " + b;
      SplitFirstToken(a[1..], b);
      assert [a[0]] + a[1..] == a;
    }
  }

  /** Split undoes Join on space-free chunks: the split of a joined value is unique. */
  lemma {:induction false} SplitJoin(chunks: seq<string>)
    requires |chunks| >= 1
    requires forall k :: 0 <= k < |chunks| ==> NoSpace(chunks[k])
    ensures Split(Join(chunks)) == chunks
  {
    if |chunks| == 1 {
      SplitSpaceFree(chunks[0]);
    } else {
      SplitJoin(chunks[1..]);
      SplitFirstToken(chunks[0], Join(chunks[1..]));
      assert [chunks[0]] + chunks[1..] == chunks;
    }
  }

  /** A wrapped key before encoding: the nonce and the ciphertext. */
  datatype Wrap = Wrap(nonce: Bytes, ciphertext: Bytes)

  /** The stored form of a wrap: it splits into exactly the two encoded tokens. */
  function Seal(co: Codec, w: Wrap): (s: string)
    ensures Split(s) == [co.encode(w.nonce), co.encode(w.ciphertext)]
  {
    var s := co.encode(w.nonce) + " " + co.encode(w.ciphertext);
    assert s == Join([co.encode(w.nonce), co.encode(w.ciphertext)]);
    SplitJoin([co.encode(w.nonce), co.encode(w.ciphertext)]);
    s
  }

  /**
   * Opens a stored wrap, refusing anything that does not split into exactly
   * two tokens that both decode. A value without a space, the empty slot
   * among them, never opens.
   */
  function Open(co: Codec, s: string): (r: Result<Wrap>)
    ensures NoSpace(s) ==> r == Err(MalformedWrap)
    ensures r.Ok? ==> exists a, b :: s == a + " " + b && NoSpace(a) && NoSpace(b)
                                     && co.decode(a) == Some(r.value.nonce)
                                     && co.decode(b) == Some(r.value.ciphertext)
  {
    var chunks := Split(s);
    if NoSpace(s) then
      SplitSpaceFree(s);
      Err(MalformedWrap)
    else if |chunks| != 2 then Err(MalformedWrap)
    else
      assert s == chunks[0] + " " + chunks[1] by {
        assert chunks[1..] == [chunks[1]];
        assert Join(chunks[1..]) == chunks[1];
        assert s == Join(chunks);
      }
      match (co.decode(chunks[0]), co.decode(chunks[1]))
      case (Some(nonce), Some(ciphertext)) => Ok(Wrap(nonce, ciphertext))
      case _ => Err(MalformedWrap)
  }

  /** Wire round trip: opening a sealed wrap gives back the same nonce and ciphertext. */
  lemma SealThenOpen(co: Codec, w: Wrap)
    ensures Open(co, Seal(co, w)) == Ok(w)
  {
  }

  /**
   * The split as login.go writes it: chunks[0] and chunks[1] are used
   * whatever the chunk count, the index panics on a value with no space, and
   * a decoding error is dropped in favour of whatever bytes the decoder
   * returned.
   */
  function OpenAsWritten(co: Codec, s: string): (r: Result<Wrap>)
    ensures NoSpace(s) ==> r == Err(MalformedWrap)
    ensures Open(co, s).Ok? ==> r == Open(co, s)
  {
    var chunks := Split(s);
    if |chunks| < 2 then
      Err(MalformedWrap)
    else
      var nonce := match co.decode(chunks[0]) case Some(b) => b case None => co.decodePartial(chunks[0]);
      var ciphertext := match co.decode(chunks[1]) case Some(b) => b case None => co.decodePartial(chunks[1]);
      Ok(Wrap(nonce, ciphertext))
  }

  /**
   * A stored value with a trailing space has three chunks: the as-written
   * split still opens it, the two-token rule refuses it.
   */
  lemma TrailingSpaceOpensAsWritten(co: Codec, w: Wrap)
    ensures OpenAsWritten(co, Seal(co, w) + " ") == Ok(w)
    ensures Open(co, Seal(co, w) + " ") == Err(MalformedWrap)
  {
    var n, c := co.encode(w.nonce), co.encode(w.ciphertext);
    var s := Seal(co, w) + " ";
    assert s == n + " " + (c + " " + "");
    SplitFirstToken(n, c + " " + "");
    SplitFirstToken(c, "");
    assert Split(s) == [n, c, ""];
  }
}
