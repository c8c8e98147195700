/** Glb::LoadBinaryFile without the file I/O: the bytes of a .glb file are
    split into the JSON chunk, parsed, and the binary chunk. The layout is
    the one of the glTF 2.0 binary container: a 12-byte header (magic,
    version, total length), then chunks of an 8-byte header (length, type)
    followed by the chunk data; JSON first, BIN second. */
module GlbContainer {
  import opened Wrappers
  import opened Bytes
  import opened JsonValue
  import JsonParser
  import Utils

  /** Bytes before the JSON chunk's length field. */
  const HeaderSize: nat := 12
  /** Bytes of a chunk header: the chunk length and the chunk type. */
  const ChunkHeaderSize: nat := 8
  /** Where the JSON text starts. */
  const JsonStart: nat := HeaderSize + ChunkHeaderSize

  /** A std::string built from raw bytes: one char per byte. */
  function AsText(bs: seq<byte>): (t: string)
    ensures |t| == |bs|
    ensures forall i :: 0 <= i < |bs| ==> t[i] as int == bs[i] as int
  {
    seq(|bs|, i requires 0 <= i < |bs| => bs[i] as int as char)
  }

  /** The JSON chunk length L, read at bytes 12..15. */
  function JsonLength(data: seq<byte>): nat
    requires |data| >= HeaderSize + 4
  {
    U32At(data, HeaderSize)
  }

  /** `uint32_t binOffset = 20 + jsonLength`: wraps modulo 2^32. */
  function BinOffset(length: nat): (offset: nat)
    ensures offset < Two32
    ensures JsonStart + length < Two32 ==> offset == JsonStart + length
  {
    (JsonStart + length) % Two32
  }

  /** The split. Reading the length of a file shorter than 16 bytes, or a
      JSON chunk or a BIN chunk header that run past the end, would read
      outside the string in the source: OutOfBounds here. */
  function LoadBinaryFile(path: string, data: seq<byte>): (r: Result<(Value, seq<byte>)>)
    ensures !Utils.HasExtension(path, ".glb") ==> r == Err(WrongExtension)
    ensures Utils.HasExtension(path, ".glb") && |data| < HeaderSize ==> r == Err(InvalidGlb)
    ensures Utils.HasExtension(path, ".glb") && HeaderSize <= |data| < HeaderSize + 4 ==> r == Err(OutOfBounds)
    ensures (Utils.HasExtension(path, ".glb") && |data| >= HeaderSize + 4 && JsonStart + JsonLength(data) > |data|)
            ==> r == Err(OutOfBounds)
    ensures r.Ok? ==> |data| >= JsonStart + JsonLength(data)
    ensures r.Ok? ==>
      var offset := BinOffset(JsonLength(data));
      && offset + ChunkHeaderSize <= |data|
      && r.value.1 == data[offset + ChunkHeaderSize..]
      && JsonParser.ParseObject(AsText(data[JsonStart..JsonStart + JsonLength(data)]), 0).Ok?
      && r.value.0 == JsonParser.ParseObject(AsText(data[JsonStart..JsonStart + JsonLength(data)]), 0).value.0
    ensures r.Ok? ==> r.value.0.Object?
  {
    if !Utils.HasExtension(path, ".glb") then Err(WrongExtension)
    else if |data| < HeaderSize then Err(InvalidGlb)
    else if |data| < HeaderSize + 4 then Err(OutOfBounds)
    else
      var length := JsonLength(data);
      if JsonStart + length > |data| then Err(OutOfBounds)
      else
        var parsed :- JsonParser.ParseObject(AsText(data[JsonStart..JsonStart + length]), 0);
        var offset := BinOffset(length);
        if offset >= |data| then Err(InvalidGlb)
        else if offset + ChunkHeaderSize > |data| then Err(OutOfBounds)
        else Ok((parsed.0, data[offset + ChunkHeaderSize..]))
  }

  // -----------------------------------------------------------------------
  // The container a writer produces, and reading it back
  // -----------------------------------------------------------------------

  /** "glTF", version 2, "JSON", "BIN\0" as little-endian words. */
  const Magic: nat := 0x4654_6C67
  const Version: nat := 2
  const JsonChunkType: nat := 0x4E4F_534A
  const BinChunkType: nat := 0x004E_4942

  /** A well-formed container holding `json` and `bin`. */
  function Container(json: seq<byte>, bin: seq<byte>): (data: seq<byte>)
    requires JsonStart + |json| + ChunkHeaderSize + |bin| < Two32
    ensures |data| == JsonStart + |json| + ChunkHeaderSize + |bin|
  {
    EncodeU32(Magic) + EncodeU32(Version) + EncodeU32(JsonStart + |json| + ChunkHeaderSize + |bin|)
    + EncodeU32(|json|) + EncodeU32(JsonChunkType) + json
    + EncodeU32(|bin|) + EncodeU32(BinChunkType) + bin
  }

  /** Where the parts of a container lie. */
  lemma ContainerLayout(json: seq<byte>, bin: seq<byte>)
    requires JsonStart + |json| + ChunkHeaderSize + |bin| < Two32
    ensures var data := Container(json, bin);
            && data[HeaderSize..HeaderSize + 4] == EncodeU32(|json|)
            && data[JsonStart..JsonStart + |json|] == json
            && data[JsonStart + |json| + ChunkHeaderSize..] == bin
  {
    var data := Container(json, bin);
    var head := EncodeU32(Magic) + EncodeU32(Version) + EncodeU32(JsonStart + |json| + ChunkHeaderSize + |bin|);
    var chunk := EncodeU32(|json|) + EncodeU32(JsonChunkType);
    var tail := EncodeU32(|bin|) + EncodeU32(BinChunkType);
    assert data == head + chunk + json + tail + bin;
    assert |head| == HeaderSize && |chunk| == ChunkHeaderSize && |tail| == ChunkHeaderSize;
    assert data[HeaderSize..HeaderSize + 4] == chunk[..4];
    assert data[JsonStart..JsonStart + |json|] == json;
    assert data[JsonStart + |json| + ChunkHeaderSize..] == bin;
  }

  /** A container whose JSON chunk parses is split back into the parsed
      document and exactly the binary chunk. */
  lemma ContainerRoundTrip(path: string, json: seq<byte>, bin: seq<byte>)
    requires Utils.HasExtension(path, ".glb")
    requires JsonStart + |json| + ChunkHeaderSize + |bin| < Two32
    requires JsonParser.ParseObject(AsText(json), 0).Ok?
    ensures LoadBinaryFile(path, Container(json, bin)) == Ok((JsonParser.ParseObject(AsText(json), 0).value.0, bin))
  {
    var data := Container(json, bin);
    ContainerLayout(json, bin);
    DecodeEncodeU32(|json|);
    SameWord(data, HeaderSize, EncodeU32(|json|));
    SplitOf(path, data, json, bin);
  }

  /** The split of any file whose length field announces `json` and whose
      binary chunk, after its header, is `bin`. */
  lemma SplitOf(path: string, data: seq<byte>, json: seq<byte>, bin: seq<byte>)
    requires Utils.HasExtension(path, ".glb") && |data| < Two32
    requires |data| == JsonStart + |json| + ChunkHeaderSize + |bin|
    requires JsonLength(data) == |json|
    requires data[JsonStart..JsonStart + |json|] == json
    requires data[JsonStart + |json| + ChunkHeaderSize..] == bin
    requires JsonParser.ParseObject(AsText(json), 0).Ok?
    ensures LoadBinaryFile(path, data) == Ok((JsonParser.ParseObject(AsText(json), 0).value.0, bin))
  {
    var offset := BinOffset(JsonLength(data));
    assert offset == JsonStart + |json|;
    assert offset < |data| && offset + ChunkHeaderSize <= |data|;
    assert data[JsonStart..JsonStart + JsonLength(data)] == json;
    assert data[offset + ChunkHeaderSize..] == bin;
  }

  /** The magic, the version, the total length, the JSON chunk type and the
      BIN chunk header are never checked: files that differ only there
      split the same way. */
  lemma HeaderFieldsIgnored(path: string, d1: seq<byte>, d2: seq<byte>)
    requires |d1| == |d2| >= JsonStart
    requires d1[HeaderSize..HeaderSize + 4] == d2[HeaderSize..HeaderSize + 4]
    requires JsonStart + JsonLength(d1) <= |d1|
    requires d1[JsonStart..JsonStart + JsonLength(d1)] == d2[JsonStart..JsonStart + JsonLength(d1)]
    requires var offset := BinOffset(JsonLength(d1));
             offset + ChunkHeaderSize <= |d1| ==> d1[offset + ChunkHeaderSize..] == d2[offset + ChunkHeaderSize..]
    ensures LoadBinaryFile(path, d1) == LoadBinaryFile(path, d2)
  {
    SameWord(d2, HeaderSize, d1[HeaderSize..HeaderSize + 4]);
    SameWord(d1, HeaderSize, d1[HeaderSize..HeaderSize + 4]);
    var length := JsonLength(d1);
    assert JsonLength(d2) == length;
    var text := AsText(d1[JsonStart..JsonStart + length]);
    assert AsText(d2[JsonStart..JsonStart + length]) == text;
  }
}
