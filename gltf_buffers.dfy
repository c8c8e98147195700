/** Reading an accessor's elements out of the BIN chunk. The source casts
    `binStr.data() + byteOffset` to a `float*`, `uint16_t*` or `uint8_t*`
    and pushes the first `n` elements into a vector; a read past the end of
    the chunk is undefined behaviour there and OutOfBounds here. The
    element size is 4 bytes for float, 2 for uint16 and 1 for uint8, as in
    section 3.6.2 of the glTF 2.0 specification (component types 5126,
    5123 and 5121). */
module GltfBuffers {
  import opened Wrappers
  import opened Bytes

  // -----------------------------------------------------------------------
  // What a read loop produces
  // -----------------------------------------------------------------------

  /** `n` float words from `offset` on. */
  function FloatWords(bin: seq<byte>, offset: nat, n: nat): (r: Result<seq<FloatBits>>)
    ensures r.Ok? <==> n == 0 || offset + 4 * n <= |bin|
    ensures r.Err? ==> r.error == OutOfBounds
    ensures r.Ok? ==> |r.value| == n
    ensures r.Ok? ==> forall i :: 0 <= i < n ==> r.value[i] == WordAt(bin, offset + 4 * i)
    decreases n
  {
    if n == 0 then Ok([])
    else if offset + 4 > |bin| then Err(OutOfBounds)
    else
      var rest :- FloatWords(bin, offset + 4, n - 1);
      Ok([WordAt(bin, offset)] + rest)
  }

  /** `n` unsigned 16-bit words from `offset` on. */
  function HalfWords(bin: seq<byte>, offset: nat, n: nat): (r: Result<seq<nat>>)
    ensures r.Ok? <==> n == 0 || offset + 2 * n <= |bin|
    ensures r.Err? ==> r.error == OutOfBounds
    ensures r.Ok? ==> |r.value| == n
    ensures r.Ok? ==> forall i :: 0 <= i < n ==> r.value[i] == U16At(bin, offset + 2 * i)
    decreases n
  {
    if n == 0 then Ok([])
    else if offset + 2 > |bin| then Err(OutOfBounds)
    else
      var rest :- HalfWords(bin, offset + 2, n - 1);
      Ok([U16At(bin, offset)] + rest)
  }

  /** `n` bytes from `offset` on, each widened to a 16-bit word. */
  function WidenedBytes(bin: seq<byte>, offset: nat, n: nat): (r: Result<seq<nat>>)
    ensures r.Ok? <==> n == 0 || offset + n <= |bin|
    ensures r.Err? ==> r.error == OutOfBounds
    ensures r.Ok? ==> |r.value| == n
    ensures r.Ok? ==> forall i :: 0 <= i < n ==> r.value[i] == bin[offset + i] as nat && r.value[i] < Two16
    decreases n
  {
    if n == 0 then Ok([])
    else if offset + 1 > |bin| then Err(OutOfBounds)
    else
      var rest :- WidenedBytes(bin, offset + 1, n - 1);
      Ok([bin[offset] as nat] + rest)
  }

  // -----------------------------------------------------------------------
  // The loops
  // -----------------------------------------------------------------------

  /** Reads `n` float words from `offset`, one per loop round. */
  method ReadFloats(bin: seq<byte>, offset: nat, n: nat) returns (r: Result<seq<FloatBits>>)
    ensures r == FloatWords(bin, offset, n)
  {
    var data: seq<FloatBits> := [];
    var i := 0;
    while i < n
      invariant i <= n && (i == 0 || offset + 4 * i <= |bin|)
      invariant |data| == i
      invariant forall k :: 0 <= k < i ==> data[k] == WordAt(bin, offset + 4 * k)
    {
      if offset + 4 * i + 4 > |bin| {
        return Err(OutOfBounds);
      }
      data := data + [WordAt(bin, offset + 4 * i)];
      i := i + 1;
    }
    assert data == FloatWords(bin, offset, n).value;
    return Ok(data);
  }

  /** Reads `n` 16-bit words from `offset`, one per loop round. */
  method ReadHalfWords(bin: seq<byte>, offset: nat, n: nat) returns (r: Result<seq<nat>>)
    ensures r == HalfWords(bin, offset, n)
  {
    var data: seq<nat> := [];
    var i := 0;
    while i < n
      invariant i <= n && (i == 0 || offset + 2 * i <= |bin|)
      invariant |data| == i
      invariant forall k :: 0 <= k < i ==> data[k] == U16At(bin, offset + 2 * k)
    {
      if offset + 2 * i + 2 > |bin| {
        return Err(OutOfBounds);
      }
      data := data + [U16At(bin, offset + 2 * i)];
      i := i + 1;
    }
    assert data == HalfWords(bin, offset, n).value;
    return Ok(data);
  }

  /** Reads `n` bytes from `offset`, each widened to 16 bits. */
  method ReadWidenedBytes(bin: seq<byte>, offset: nat, n: nat) returns (r: Result<seq<nat>>)
    ensures r == WidenedBytes(bin, offset, n)
  {
    var data: seq<nat> := [];
    var i := 0;
    while i < n
      invariant i <= n && (i == 0 || offset + i <= |bin|)
      invariant |data| == i
      invariant forall k :: 0 <= k < i ==> data[k] == bin[offset + k] as nat
    {
      if offset + i + 1 > |bin| {
        return Err(OutOfBounds);
      }
      data := data + [bin[offset + i] as nat];
      i := i + 1;
    }
    assert data == WidenedBytes(bin, offset, n).value;
    return Ok(data);
  }

  // -----------------------------------------------------------------------
  // Words written by a writer are read back
  // -----------------------------------------------------------------------

  function EncodeFloats(ws: seq<FloatBits>): (bs: seq<byte>)
    ensures |bs| == 4 * |ws|
  {
    if ws == [] then [] else EncodeU32(ws[0] as nat) + EncodeFloats(ws[1..])
  }

  function EncodeHalfWords(ws: seq<nat>): (bs: seq<byte>)
    requires forall i :: 0 <= i < |ws| ==> ws[i] < Two16
    ensures |bs| == 2 * |ws|
  {
    if ws == [] then [] else EncodeU16(ws[0]) + EncodeHalfWords(ws[1..])
  }

  /** Floats written anywhere in the chunk are read back unchanged. */
  lemma {:induction false} FloatsRoundTrip(pre: seq<byte>, ws: seq<FloatBits>, post: seq<byte>)
    ensures FloatWords(pre + EncodeFloats(ws) + post, |pre|, |ws|) == Ok(ws)
    decreases |ws|
  {
    if ws != [] {
      var bin := pre + EncodeFloats(ws) + post;
      var word := EncodeU32(ws[0] as nat);
      assert bin == (pre + word) + EncodeFloats(ws[1..]) + post;
      FloatsRoundTrip(pre + word, ws[1..], post);
      assert WordAt(bin, |pre|) == ws[0] by {
        assert bin[|pre|..|pre| + 4] == word;
        SameWord(bin, |pre|, word);
        DecodeEncodeU32(ws[0] as nat);
      }
      assert [ws[0]] + ws[1..] == ws;
    }
  }

  /** 16-bit words written anywhere in the chunk are read back unchanged. */
  lemma {:induction false} HalfWordsRoundTrip(pre: seq<byte>, ws: seq<nat>, post: seq<byte>)
    requires forall i :: 0 <= i < |ws| ==> ws[i] < Two16
    ensures HalfWords(pre + EncodeHalfWords(ws) + post, |pre|, |ws|) == Ok(ws)
    decreases |ws|
  {
    if ws != [] {
      var bin := pre + EncodeHalfWords(ws) + post;
      var word := EncodeU16(ws[0]);
      assert bin == (pre + word) + EncodeHalfWords(ws[1..]) + post;
      HalfWordsRoundTrip(pre + word, ws[1..], post);
      assert U16At(bin, |pre|) == ws[0] by {
        assert bin[|pre|] == word[0] && bin[|pre| + 1] == word[1];
        DecodeEncodeU16(ws[0]);
      }
      assert [ws[0]] + ws[1..] == ws;
    }
  }
}
