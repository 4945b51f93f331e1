/** Bytes and the little-endian words in them. */
module Memory {

  type byte = x: int | 0 <= x < 256
  type u32 = x: int | 0 <= x < 0x1_0000_0000

  function ReadWord(b: seq<byte>, p: nat): u32
    requires p + 4 <= |b|
  {
    var b0: int, b1: int, b2: int, b3: int := b[p], b[p + 1], b[p + 2], b[p + 3];
    b0 + 0x100 * b1 + 0x1_0000 * b2 + 0x100_0000 * b3
  }

  function WordBytes(w: u32): (b: seq<byte>)
    ensures |b| == 4
  {
    [w % 256, w / 256 % 256, w / 0x1_0000 % 256, w / 0x100_0000]
  }

  /** The low byte comes first. */
  lemma LowByteFirst(b: seq<byte>, p: nat)
    requires p + 4 <= |b|
    ensures ReadWord(b, p) % 0x100 == b[p] && ReadWord(b, p) / 0x100 % 0x100 == b[p + 1]
    ensures ReadWord(b, p) / 0x1_0000 % 0x100 == b[p + 2] && ReadWord(b, p) / 0x100_0000 == b[p + 3]
  {
    hide ReadWord;
    var b0: int, b1: int, b2: int, b3: int := b[p], b[p + 1], b[p + 2], b[p + 3];
    WordIs(b, p);
    BytesOf(b0, b1, b2, b3);
  }

  lemma BytesOf(b0: byte, b1: byte, b2: byte, b3: byte)
    ensures var w: int := b0 + 0x100 * b1 + 0x1_0000 * b2 + 0x100_0000 * b3;
            w % 0x100 == b0 && w / 0x100 % 0x100 == b1 && w / 0x1_0000 % 0x100 == b2 && w / 0x100_0000 == b3
  {
    var h: int := b1 + 0x100 * b2 + 0x1_0000 * b3;
    var k: int := b2 + 0x100 * b3;
    var w := b0 + 0x100 * h;
    assert w / 0x100 == h && w % 0x100 == b0;
    assert h / 0x100 == k && h % 0x100 == b1;
    assert w / 0x1_0000 == k && k / 0x100 == b3;
    assert w / 0x100_0000 == b3;
  }

  lemma WordIs(b: seq<byte>, p: nat)
    requires p + 4 <= |b|
    ensures var b0: int, b1: int, b2: int, b3: int := b[p], b[p + 1], b[p + 2], b[p + 3];
            ReadWord(b, p) == b0 + 0x100 * b1 + 0x1_0000 * b2 + 0x100_0000 * b3
  {
  }

  lemma WordRoundTrip(w: u32)
    ensures ReadWord(WordBytes(w), 0) == w
  {
    var h := w / 256;
    var h2 := h / 256;
    assert w / 0x1_0000 == h2 && w / 0x100_0000 == h2 / 256;
  }

  /** Memory after a word has been stored at `p`. */
  function WriteWord(b: seq<byte>, p: nat, w: u32): (r: seq<byte>)
    requires p + 4 <= |b|
    ensures |r| == |b|
  {
    b[..p] + WordBytes(w) + b[p + 4..]
  }

  lemma ReadSlice(b: seq<byte>, c: seq<byte>, p: nat, q: nat)
    requires p + 4 <= |b| && q + 4 <= |c| && b[p..p + 4] == c[q..q + 4]
    ensures ReadWord(b, p) == ReadWord(c, q)
  {
    var u, v := b[p..p + 4], c[q..q + 4];
    assert forall k :: 0 <= k < 4 ==> u[k] == b[p + k] && v[k] == c[q + k];
  }
}
