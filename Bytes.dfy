/** Fixed-width integers and the byte-order reads every dissector performs.
    A frame is a `seq<byte>`; a cursor into it is a plain `nat` offset. */
module Bytes {

  type byte = x: int | 0 <= x < 0x100
  type u16 = x: int | 0 <= x < 0x1_0000
  type u32 = x: int | 0 <= x < 0x1_0000_0000

  /** `ntohs` of the two bytes at offset i (network order, most significant first). */
  function BE16(d: seq<byte>, i: nat): u16
    requires i + 2 <= |d|
  {
    d[i] as int * 0x100 + d[i + 1]
  }

  /** `ntohl` of the four bytes at offset i. */
  function BE32(d: seq<byte>, i: nat): u32
    requires i + 4 <= |d|
  {
    BE16(d, i) * 0x1_0000 + BE16(d, i + 2)
  }

  /** A 32-bit word copied raw out of the frame (`memcpy`, `*(uint32_t*)`) on a
      little-endian host: the byte at the lowest address is the least significant. */
  function LE32(d: seq<byte>, i: nat): u32
    requires i + 4 <= |d|
  {
    d[i] as int + d[i + 1] as int * 0x100 + d[i + 2] as int * 0x1_0000 + d[i + 3] as int * 0x100_0000
  }

  /** Byte k (0 = least significant) of a 32-bit word: `(v >> 8k) & 0xFF`. */
  function ByteOf(v: u32, k: nat): byte
    requires k < 4
  {
    if k == 0 then v % 0x100
    else if k == 1 then (v / 0x100) % 0x100
    else if k == 2 then (v / 0x1_0000) % 0x100
    else v / 0x100_0000
  }

  /** The wire encodings of 16- and 32-bit fields, for the round-trip lemmas. */
  function Be16Bytes(v: u16): (s: seq<byte>)
    ensures |s| == 2
  {
    [v / 0x100, v % 0x100]
  }

  function Be32Bytes(v: u32): (s: seq<byte>)
    ensures |s| == 4
  {
    Be16Bytes(v / 0x1_0000) + Be16Bytes(v % 0x1_0000)
  }

  lemma BE16OfBytes(pre: seq<byte>, v: u16, post: seq<byte>)
    ensures BE16(pre + Be16Bytes(v) + post, |pre|) == v
  {
    var d := pre + Be16Bytes(v) + post;
    assert d[|pre|] == v / 0x100 && d[|pre| + 1] == v % 0x100;
  }

  lemma BE32OfBytes(pre: seq<byte>, v: u32, post: seq<byte>)
    ensures BE32(pre + Be32Bytes(v) + post, |pre|) == v
  {
    var hi, lo := Be16Bytes(v / 0x1_0000), Be16Bytes(v % 0x1_0000);
    assert pre + Be32Bytes(v) + post == pre + hi + (lo + post);
    assert pre + Be32Bytes(v) + post == (pre + hi) + lo + post;
    BE16OfBytes(pre, v / 0x1_0000, lo + post);
    BE16OfBytes(pre + hi, v % 0x1_0000, post);
  }

  /** The raw little-endian word is the bytes recombined by `ByteOf`. */
  lemma LE32Bytes(d: seq<byte>, i: nat)
    requires i + 4 <= |d|
    ensures ByteOf(LE32(d, i), 0) == d[i] && ByteOf(LE32(d, i), 1) == d[i + 1]
    ensures ByteOf(LE32(d, i), 2) == d[i + 2] && ByteOf(LE32(d, i), 3) == d[i + 3]
  {
    var v := LE32(d, i);
    assert v == d[i] as int + 0x100 * (d[i + 1] as int + 0x100 * (d[i + 2] as int + 0x100 * d[i + 3] as int));
    assert v / 0x100 == d[i + 1] as int + 0x100 * (d[i + 2] as int + 0x100 * d[i + 3] as int);
    assert v / 0x1_0000 == (v / 0x100) / 0x100;
    assert v / 0x1_0000 == d[i + 2] as int + 0x100 * d[i + 3] as int;
    assert v / 0x100_0000 == (v / 0x1_0000) / 0x100;
  }

  /** The four memory bytes of a raw little-endian word. */
  function Le32Bytes(v: u32): (s: seq<byte>)
    ensures |s| == 4
  {
    [ByteOf(v, 0), ByteOf(v, 1), ByteOf(v, 2), ByteOf(v, 3)]
  }

  /** Storing a word raw and reading it back raw gives the word. */
  lemma LE32OfBytes(pre: seq<byte>, v: u32, post: seq<byte>)
    ensures LE32(pre + Le32Bytes(v) + post, |pre|) == v
  {
    var d := pre + Le32Bytes(v) + post;
    var i := |pre|;
    assert d[i] == v % 0x100 && d[i + 1] == (v / 0x100) % 0x100;
    assert d[i + 2] == (v / 0x1_0000) % 0x100 && d[i + 3] == v / 0x100_0000;
    assert v / 0x1_0000 == (v / 0x100) / 0x100;
    assert v / 0x100_0000 == (v / 0x1_0000) / 0x100;
    assert v == v % 0x100 + 0x100 * (v / 0x100);
    assert v / 0x100 == (v / 0x100) % 0x100 + 0x100 * (v / 0x1_0000);
    assert v / 0x1_0000 == (v / 0x1_0000) % 0x100 + 0x100 * (v / 0x100_0000);
  }

  /** The four bytes of a word, most significant first, read back big-endian. */
  lemma ByteOfRecompose(v: u32)
    ensures (ByteOf(v, 3) * 0x100 + ByteOf(v, 2)) * 0x1_0000 + ByteOf(v, 1) * 0x100 + ByteOf(v, 0) == v
  {
    assert v / 0x1_0000 == (v / 0x100) / 0x100;
    assert v / 0x100_0000 == (v / 0x1_0000) / 0x100;
    assert v == v % 0x100 + 0x100 * (v / 0x100);
    assert v / 0x100 == (v / 0x100) % 0x100 + 0x100 * (v / 0x1_0000);
    assert v / 0x1_0000 == (v / 0x1_0000) % 0x100 + 0x100 * (v / 0x100_0000);
  }

  /** The middle piece of a concatenation, cut back out. */
  lemma SliceMiddle(a: seq<byte>, b: seq<byte>, c: seq<byte>)
    ensures (a + b + c)[|a|..|a| + |b|] == b
    ensures a + b + c == a + (b + c)
  {
  }
}
