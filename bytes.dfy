/** Little-endian words in a byte string. The source reads them with
    `reinterpret_cast` on a little-endian host; here they are decoded
    explicitly. Float words are kept as their 32 raw bits. */
module Bytes {

  /** One byte of the file. */
  newtype byte = b: int | 0 <= b < 0x100

  const Two8: nat := 0x100
  const Two16: nat := 0x1_0000
  const Two32: nat := 0x1_0000_0000

  /** The unsigned 16-bit word stored at `at`, low byte first. */
  function U16At(bs: seq<byte>, at: nat): (n: nat)
    requires at + 2 <= |bs|
    ensures n < Two16
    ensures n % Two8 == bs[at] as nat && n / Two8 == bs[at + 1] as nat
  {
    bs[at] as nat + Two8 * bs[at + 1] as nat
  }

  /** The unsigned 32-bit word stored at `at`, low byte first. */
  function U32At(bs: seq<byte>, at: nat): (n: nat)
    requires at + 4 <= |bs|
    ensures n < Two32
  {
    bs[at] as nat + Two8 * (bs[at + 1] as nat + Two8 * (bs[at + 2] as nat + Two8 * bs[at + 3] as nat))
  }

  /** The 32 raw bits of a float, uninterpreted. */
  newtype FloatBits = n: int | 0 <= n < 0x1_0000_0000

  /** The float stored at `at`, as its bits. */
  function WordAt(bs: seq<byte>, at: nat): (w: FloatBits)
    requires at + 4 <= |bs|
    ensures w as nat == U32At(bs, at)
  {
    U32At(bs, at) as FloatBits
  }

  /** The four bytes of `n`, low byte first. */
  function EncodeU32(n: nat): (bs: seq<byte>)
    requires n < Two32
    ensures |bs| == 4
  {
    var n1 := n / Two8;
    var n2 := n1 / Two8;
    [(n % Two8) as byte, (n1 % Two8) as byte, (n2 % Two8) as byte, (n2 / Two8) as byte]
  }

  /** Decoding the encoding of a word gives the word back. */
  lemma DecodeEncodeU32(n: nat)
    requires n < Two32
    ensures U32At(EncodeU32(n), 0) == n
  {
    var n1 := n / Two8;
    var n2 := n1 / Two8;
    SplitByte(n);
    SplitByte(n1);
    SplitByte(n2);
  }

  /** Encoding the word four bytes hold gives those bytes back. */
  lemma EncodeDecodeU32(bs: seq<byte>)
    requires |bs| == 4
    ensures EncodeU32(U32At(bs, 0)) == bs
  {
    var n := U32At(bs, 0);
    var b0, b1, b2, b3 := bs[0] as nat, bs[1] as nat, bs[2] as nat, bs[3] as nat;
    var a := b1 + Two8 * (b2 + Two8 * b3);
    var b := b2 + Two8 * b3;
    DivModUnique(n, b0, a);
    DivModUnique(a, b1, b);
    DivModUnique(b, b2, b3);
    var e := EncodeU32(n);
    assert e[0] == bs[0] && e[1] == bs[1] && e[2] == bs[2] && e[3] == bs[3];
  }

  /** One byte split off a number. */
  lemma SplitByte(n: nat)
    ensures n == n % Two8 + Two8 * (n / Two8) && n % Two8 < Two8
  {
  }

  lemma DivModUnique(n: nat, lo: nat, hi: nat)
    requires lo < Two8 && n == lo + Two8 * hi
    ensures n % Two8 == lo && n / Two8 == hi
  {
  }

  /** A word reads the same wherever its four bytes are copied. */
  lemma SameWord(data: seq<byte>, at: nat, word: seq<byte>)
    requires at + 4 <= |data| && data[at..at + 4] == word
    ensures U32At(data, at) == U32At(word, 0)
  {
    assert data[at] == word[0] && data[at + 1] == word[1] && data[at + 2] == word[2] && data[at + 3] == word[3];
  }

  /** The two bytes of `n`, low byte first. */
  function EncodeU16(n: nat): (bs: seq<byte>)
    requires n < Two16
    ensures |bs| == 2
  {
    [(n % Two8) as byte, (n / Two8) as byte]
  }

  lemma DecodeEncodeU16(n: nat)
    requires n < Two16
    ensures U16At(EncodeU16(n), 0) == n
  {
    SplitByte(n);
  }
}
