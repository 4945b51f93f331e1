/** Bob Jenkins' hash, as the kernel's `jhash.h` has it, on 32-bit words. */
module Jhash {
  import opened Common
  import opened Bits
  import opened Memory

  const INITVAL: u32 := 0xdeadbeef

  datatype Triple = Triple(a: u32, b: u32, c: u32)

  function Add(x: u32, y: u32): u32 {
    (x + y) % U32
  }

  function Sub(x: u32, y: u32): u32 {
    (x - y) % U32
  }

  function Xor32(x: u32, y: u32): u32 {
    XorFits(x, y);
    Xor(x, y)
  }

  lemma XorFits(x: u32, y: u32)
    ensures Xor(x, y) < U32
  {
    Pow2At32();
    XorBound(x, y, 32);
  }

  /** `rol32`: the bits shifted out at the top come back at the bottom. */
  function Rol32(word: u32, shift: nat): u32
    requires 0 < shift < 32
  {
    RolFits(word, shift);
    Or(word * Pow2(shift) % U32, word / Pow2(32 - shift))
  }

  /** The two parts of a rotation do not overlap: joining them is adding them. */
  lemma RolFits(word: u32, shift: nat)
    requires 0 < shift < 32
    ensures var up, down := word * Pow2(shift) % U32, word / Pow2(32 - shift);
            0 <= up && 0 <= down && Or(up, down) == up + down < U32
  {
    hide Pow2, Or;
    Pow2At32();
    Pow2Splits(shift, 32);
    RolParts(word, Pow2(shift), Pow2(32 - shift));
    OrBelow(word % Pow2(32 - shift), word / Pow2(32 - shift), shift);
  }

  /** Rotation moves the low bits up and brings the high bits down. */
  lemma RotationIs(word: u32, shift: nat)
    requires 0 < shift < 32
    ensures Rol32(word, shift) == word % Pow2(32 - shift) * Pow2(shift) + word / Pow2(32 - shift)
    ensures Rol32(word, shift) % Pow2(shift) == word / Pow2(32 - shift)
    ensures Rol32(word, shift) / Pow2(shift) == word % Pow2(32 - shift)
  {
    hide Pow2, Or;
    RolFits(word, shift);
    Pow2At32();
    Pow2Splits(shift, 32);
    RolParts(word, Pow2(shift), Pow2(32 - shift));
    var p, q := Pow2(shift), Pow2(32 - shift);
    RemainderIs(Rol32(word, shift), p, word % q, word / q);
  }

  lemma RolParts(word: u32, p: nat, q: nat)
    requires p > 0 && q > 0 && p * q == U32
    ensures word * p % U32 == word % q * p && word * p % U32 + word / q < U32 && word / q < p
  {
    var h, l := word / q, word % q;
    assert word == q * h + l;
    TimesSplit(h, l, p, q);
    LessTimes(l, q, p);
    RemainderIs(word * p, U32, h, l * p);
    QuotientBelow(word, q, p);
  }

  lemma TimesSplit(h: int, l: int, p: int, q: int)
    requires p * q == U32
    ensures (q * h + l) * p == U32 * h + l * p
  {
  }

  lemma LessTimes(l: nat, q: nat, p: nat)
    requires l < q
    ensures l * p + p <= q * p == p * q
  {
    assert q * p == (l + 1) * p + (q - l - 1) * p;
  }

  lemma QuotientBelow(w: nat, q: nat, p: nat)
    requires q > 0 && w < p * q
    ensures w / q < p
  {
  }

  /** Rotation by a fixed amount. */
  function Rol(shift: nat): u32 -> u32
    requires 0 < shift < 32
  {
    w => Rol32(w, shift)
  }

  // ----- mixing -----

  /** One line of `__jhash_mix`, `x -= z; x ^= rol32(z, k); z += y`, as the new `x` and `z`.
      It can be undone whatever `rot` is. */
  function MixStep(x: u32, y: u32, z: u32, rot: u32 -> u32): (u32, u32) {
    (Xor32(Sub(x, z), rot(z)), Add(z, y))
  }

  function UnmixStep(x: u32, y: u32, z: u32, rot: u32 -> u32): (u32, u32) {
    var z0 := Sub(z, y);
    (Add(Xor32(x, rot(z0)), z0), z0)
  }

  /** One line of `__jhash_final`: `x ^= y; x -= rol32(y, k)`. */
  function FinalStep(x: u32, y: u32, rot: u32 -> u32): u32 {
    Sub(Xor32(x, y), rot(y))
  }

  function UnfinalStep(x: u32, y: u32, rot: u32 -> u32): u32 {
    Xor32(Add(x, rot(y)), y)
  }

  lemma AddSub(x: u32, y: u32)
    ensures Sub(Add(x, y), y) == x && Add(Sub(x, y), y) == x
  {
  }

  lemma MixStepInverse(x: u32, y: u32, z: u32, rot: u32 -> u32)
    ensures var (x', z') := MixStep(x, y, z, rot); UnmixStep(x', y, z', rot) == (x, z)
    ensures var (x', z') := UnmixStep(x, y, z, rot); MixStep(x', y, z', rot) == (x, z)
  {
    hide Add, Sub, Xor;
    AddSub(z, y);
    AddSub(x, z);
    XorUndone(Sub(x, z), rot(z));
    var z0 := Sub(z, y);
    AddSub(Xor32(x, rot(z0)), z0);
    XorUndone(x, rot(z0));
  }

  lemma FinalStepInverse(x: u32, y: u32, rot: u32 -> u32)
    ensures UnfinalStep(FinalStep(x, y, rot), y, rot) == x && FinalStep(UnfinalStep(x, y, rot), y, rot) == x
  {
    hide Add, Sub, Xor;
    AddSub(Xor32(x, y), rot(y));
    AddSub(x, rot(y));
    XorUndone(x, y);
    XorUndone(Add(x, rot(y)), y);
  }

  function Mix(t: Triple): Triple {
    var (a1, c1) := MixStep(t.a, t.b, t.c, Rol(4));
    var (b1, a2) := MixStep(t.b, c1, a1, Rol(6));
    var (c2, b2) := MixStep(c1, a2, b1, Rol(8));
    var (a3, c3) := MixStep(a2, b2, c2, Rol(16));
    var (b3, a4) := MixStep(b2, c3, a3, Rol(19));
    var (c4, b4) := MixStep(c3, a4, b3, Rol(4));
    Triple(a4, b4, c4)
  }

  function Unmix(t: Triple): Triple {
    var (c3, b3) := UnmixStep(t.c, t.a, t.b, Rol(4));
    var (b2, a3) := UnmixStep(b3, c3, t.a, Rol(19));
    var (a2, c2) := UnmixStep(a3, b2, c3, Rol(16));
    var (c1, b1) := UnmixStep(c2, a2, b2, Rol(8));
    var (b0, a1) := UnmixStep(b1, c1, a2, Rol(6));
    var (a0, c0) := UnmixStep(a1, b0, c1, Rol(4));
    Triple(a0, b0, c0)
  }

  function Final(t: Triple): Triple {
    var c1 := FinalStep(t.c, t.b, Rol(14));
    var a1 := FinalStep(t.a, c1, Rol(11));
    var b1 := FinalStep(t.b, a1, Rol(25));
    var c2 := FinalStep(c1, b1, Rol(16));
    var a2 := FinalStep(a1, c2, Rol(4));
    var b2 := FinalStep(b1, a2, Rol(14));
    var c3 := FinalStep(c2, b2, Rol(24));
    Triple(a2, b2, c3)
  }

  function Unfinal(t: Triple): Triple {
    var c2 := UnfinalStep(t.c, t.b, Rol(24));
    var b1 := UnfinalStep(t.b, t.a, Rol(14));
    var a1 := UnfinalStep(t.a, c2, Rol(4));
    var c1 := UnfinalStep(c2, b1, Rol(16));
    var b0 := UnfinalStep(b1, a1, Rol(25));
    var a0 := UnfinalStep(a1, c1, Rol(11));
    var c0 := UnfinalStep(c1, b0, Rol(14));
    Triple(a0, b0, c0)
  }

  /** `__jhash_mix` is a permutation of 32-bit triples: `Unmix` undoes it on both sides. */
  lemma MixIsPermutation(t: Triple)
    ensures Unmix(Mix(t)) == t && Mix(Unmix(t)) == t
  {
    hide MixStep, UnmixStep, Rol;
    UnmixAfterMix(t);
    MixAfterUnmix(t);
  }

  lemma UnmixAfterMix(t: Triple)
    ensures Unmix(Mix(t)) == t
  {
    hide MixStep, UnmixStep, Rol;
    var (a1, c1) := MixStep(t.a, t.b, t.c, Rol(4));
    var (b1, a2) := MixStep(t.b, c1, a1, Rol(6));
    var (c2, b2) := MixStep(c1, a2, b1, Rol(8));
    var (a3, c3) := MixStep(a2, b2, c2, Rol(16));
    var (b3, a4) := MixStep(b2, c3, a3, Rol(19));
    MixStepInverse(t.a, t.b, t.c, Rol(4));
    MixStepInverse(t.b, c1, a1, Rol(6));
    MixStepInverse(c1, a2, b1, Rol(8));
    MixStepInverse(a2, b2, c2, Rol(16));
    MixStepInverse(b2, c3, a3, Rol(19));
    MixStepInverse(c3, a4, b3, Rol(4));
  }

  lemma MixAfterUnmix(t: Triple)
    ensures Mix(Unmix(t)) == t
  {
    hide MixStep, UnmixStep, Rol;
    var (c3, b3) := UnmixStep(t.c, t.a, t.b, Rol(4));
    var (b2, a3) := UnmixStep(b3, c3, t.a, Rol(19));
    var (a2, c2) := UnmixStep(a3, b2, c3, Rol(16));
    var (c1, b1) := UnmixStep(c2, a2, b2, Rol(8));
    var (b0, a1) := UnmixStep(b1, c1, a2, Rol(6));
    MixStepInverse(t.c, t.a, t.b, Rol(4));
    MixStepInverse(b3, c3, t.a, Rol(19));
    MixStepInverse(a3, b2, c3, Rol(16));
    MixStepInverse(c2, a2, b2, Rol(8));
    MixStepInverse(b1, c1, a2, Rol(6));
    MixStepInverse(a1, b0, c1, Rol(4));
  }

  /** `__jhash_final` is a permutation of 32-bit triples. */
  lemma FinalIsPermutation(t: Triple)
    ensures Unfinal(Final(t)) == t && Final(Unfinal(t)) == t
  {
    UnfinalAfterFinal(t);
    FinalAfterUnfinal(t);
  }

  lemma UnfinalAfterFinal(t: Triple)
    ensures Unfinal(Final(t)) == t
  {
    hide FinalStep, UnfinalStep, Rol;
    var c1 := FinalStep(t.c, t.b, Rol(14));
    var a1 := FinalStep(t.a, c1, Rol(11));
    var b1 := FinalStep(t.b, a1, Rol(25));
    var c2 := FinalStep(c1, b1, Rol(16));
    var a2 := FinalStep(a1, c2, Rol(4));
    var b2 := FinalStep(b1, a2, Rol(14));
    FinalStepInverse(t.c, t.b, Rol(14));
    FinalStepInverse(t.a, c1, Rol(11));
    FinalStepInverse(t.b, a1, Rol(25));
    FinalStepInverse(c1, b1, Rol(16));
    FinalStepInverse(a1, c2, Rol(4));
    FinalStepInverse(b1, a2, Rol(14));
    FinalStepInverse(c2, b2, Rol(24));
  }

  lemma FinalAfterUnfinal(t: Triple)
    ensures Final(Unfinal(t)) == t
  {
    hide FinalStep, UnfinalStep, Rol;
    var c2 := UnfinalStep(t.c, t.b, Rol(24));
    var b1 := UnfinalStep(t.b, t.a, Rol(14));
    var a1 := UnfinalStep(t.a, c2, Rol(4));
    var c1 := UnfinalStep(c2, b1, Rol(16));
    var b0 := UnfinalStep(b1, a1, Rol(25));
    var a0 := UnfinalStep(a1, c1, Rol(11));
    FinalStepInverse(t.c, t.b, Rol(24));
    FinalStepInverse(t.b, t.a, Rol(14));
    FinalStepInverse(t.a, c2, Rol(4));
    FinalStepInverse(c2, b1, Rol(16));
    FinalStepInverse(b1, a1, Rol(25));
    FinalStepInverse(a1, c1, Rol(11));
    FinalStepInverse(c1, b0, Rol(14));
  }

  // ----- the macros, line by line -----

  /** `__jhash_mix`, line by line: `x -= z`, `x ^= rol32(z, k)`, `z += y`. */
  lemma MixLines(t: Triple)
    ensures var (a1, c1) := (Xor32(Sub(t.a, t.c), Rol32(t.c, 4)), Add(t.c, t.b));
            var (b1, a2) := (Xor32(Sub(t.b, a1), Rol32(a1, 6)), Add(a1, c1));
            var (c2, b2) := (Xor32(Sub(c1, b1), Rol32(b1, 8)), Add(b1, a2));
            var (a3, c3) := (Xor32(Sub(a2, c2), Rol32(c2, 16)), Add(c2, b2));
            var (b3, a4) := (Xor32(Sub(b2, a3), Rol32(a3, 19)), Add(a3, c3));
            var (c4, b4) := (Xor32(Sub(c3, b3), Rol32(b3, 4)), Add(b3, a4));
            Mix(t) == Triple(a4, b4, c4)
  {
    hide Xor32, Rol32, Add, Sub;
  }

  /** `__jhash_final`, line by line: `x ^= y`, `x -= rol32(y, k)`. */
  lemma FinalLines(t: Triple)
    ensures var c1 := Sub(Xor32(t.c, t.b), Rol32(t.b, 14));
            var a1 := Sub(Xor32(t.a, c1), Rol32(c1, 11));
            var b1 := Sub(Xor32(t.b, a1), Rol32(a1, 25));
            var c2 := Sub(Xor32(c1, b1), Rol32(b1, 16));
            var a2 := Sub(Xor32(a1, c2), Rol32(c2, 4));
            var b2 := Sub(Xor32(b1, a2), Rol32(a2, 14));
            var c3 := Sub(Xor32(c2, b2), Rol32(b2, 24));
            Final(t) == Triple(a2, b2, c3)
  {
    hide Xor32, Rol32, Add, Sub;
  }

  /** The operations in them: sums and differences in 32 bits, and the bitwise exclusive or. */
  lemma OperationsAre(x: u32, y: u32)
    ensures Add(x, y) == (x + y) % 0x1_0000_0000 && Sub(x, y) == (x - y) % 0x1_0000_0000
    ensures Xor32(x, y) % 2 == (x + y) % 2 && Xor32(x, y) / 2 == Xor32(x / 2, y / 2)
    ensures Xor32(x, 0) == x && Xor32(x, x) == 0
  {
    hide Xor;
    XorStep(x, y);
    XorZero();
    XorNone(x);
    XorUndone(0, x);
    XorSwap(x, 0);
  }

  // ----- hashing words -----

  function AddWords(t: Triple, x: u32, y: u32, z: u32): Triple {
    Triple(Add(t.a, x), Add(t.b, y), Add(t.c, z))
  }

  /** The hash of the words left, from the state reached: blocks of three are mixed in, and
      the last one to three words are finalized. */
  function HashWords(k: seq<u32>, t: Triple): u32 {
    if |k| > 3 then HashWords(k[3..], Mix(AddWords(t, k[0], k[1], k[2])))
    else if |k| == 3 then Final(AddWords(t, k[0], k[1], k[2])).c
    else if |k| == 2 then Final(AddWords(t, k[0], k[1], 0)).c
    else if |k| == 1 then Final(AddWords(t, k[0], 0, 0)).c
    else t.c
  }

  function Start(length: nat, initval: u32): Triple {
    var v := Add(Add(INITVAL, length % U32), initval);
    Triple(v, v, v)
  }

  method Jhash2(key: seq<u32>, initval: u32) returns (r: u32)
    ensures r == HashWords(key, Start(4 * |key|, initval))
  {
    hide Mix, Final;
    var t := Start(4 * |key|, initval);
    var (a, b, c) := (t.a, t.b, t.c);
    var k, length := 0, |key|;
    while length > 3
      invariant 0 <= k <= |key| && length == |key| - k
      invariant HashWords(key[k..], Triple(a, b, c)) == HashWords(key, Start(4 * |key|, initval))
    {
      a, b, c := Add(a, key[k]), Add(b, key[k + 1]), Add(c, key[k + 2]);
      var m := Mix(Triple(a, b, c));
      assert key[k..][3..] == key[k + 3..];
      a, b, c := m.a, m.b, m.c;
      length, k := length - 3, k + 3;
    }
    AddZero(b);
    AddZero(c);
    if length >= 3 {
      c := Add(c, key[k + 2]);
    }
    if length >= 2 {
      b := Add(b, key[k + 1]);
    }
    if length >= 1 {
      a := Add(a, key[k]);
      c := Final(Triple(a, b, c)).c;
    }
    return c;
  }

  lemma AddZero(x: u32)
    ensures Add(x, 0) == x
  {
  }

  // ----- hashing bytes -----

  /** What the `switch` adds for up to four bytes, the highest first. */
  function AddBytes(x: u32, k: seq<byte>): u32 {
    var x3 := if |k| > 3 then Add(x, Shifted(k[3], 0x100_0000)) else x;
    var x2 := if |k| > 2 then Add(x3, Shifted(k[2], 0x1_0000)) else x3;
    var x1 := if |k| > 1 then Add(x2, Shifted(k[1], 0x100)) else x2;
    if |k| > 0 then Add(x1, Shifted(k[0], 1)) else x1
  }

  /** A byte shifted to its place in a word. */
  function Shifted(b: int, place: int): u32
    requires 0 <= b < 256 && (place == 1 || place == 0x100 || place == 0x1_0000 || place == 0x100_0000)
  {
    b * place
  }

  /** Bytes `i` to `i + 4`, as far as there are any. */
  function Four(k: seq<byte>, i: nat): seq<byte> {
    if i >= |k| then [] else if i + 4 <= |k| then k[i..i + 4] else k[i..]
  }

  function HashBytes(k: seq<byte>, t: Triple): u32
    decreases |k|
  {
    if |k| > 12 then HashBytes(k[12..], Mix(AddWords(t, ReadWord(k, 0), ReadWord(k, 4), ReadWord(k, 8))))
    else if |k| == 0 then t.c
    else Final(Triple(AddBytes(t.a, Four(k, 0)), AddBytes(t.b, Four(k, 4)), AddBytes(t.c, Four(k, 8)))).c
  }

  method Jhash(key: seq<byte>, initval: u32) returns (r: u32)
    ensures r == HashBytes(key, Start(|key|, initval))
  {
    hide Mix, Final, AddBytes, ReadWord;
    var t := Start(|key|, initval);
    var (a, b, c) := (t.a, t.b, t.c);
    var k, length := 0, |key|;
    while length > 12
      invariant 0 <= k <= |key| && length == |key| - k
      invariant HashBytes(key[k..], Triple(a, b, c)) == HashBytes(key, Start(|key|, initval))
    {
      var block := key[k..];
      a, b, c := Add(a, ReadWord(block, 0)), Add(b, ReadWord(block, 4)), Add(c, ReadWord(block, 8));
      var m := Mix(Triple(a, b, c));
      assert block[12..] == key[k + 12..];
      a, b, c := m.a, m.b, m.c;
      length, k := length - 12, k + 12;
    }
    var rest := key[k..];
    if length > 0 {
      c := AddBytes(c, Four(rest, 8));
      b := AddBytes(b, Four(rest, 4));
      a := AddBytes(a, Four(rest, 0));
      c := Final(Triple(a, b, c)).c;
    }
    return c;
  }

  // ----- the variants agree -----

  /** The bytes of words, low byte first. */
  function LittleEndian(ws: seq<u32>): (b: seq<byte>)
    ensures |b| == 4 * |ws|
  {
    if ws == [] then [] else WordBytes(ws[0]) + LittleEndian(ws[1..])
  }

  lemma AddBytesOfWord(x: u32, w: u32)
    ensures AddBytes(x, WordBytes(w)) == Add(x, w) && AddBytes(x, []) == x
  {
    hide Add, WordBytes;
    var b := WordBytes(w);
    var b0: int, b1: int, b2: int, b3: int := b[0], b[1], b[2], b[3];
    WordRoundTrip(w);
    AddAdd(x, b3 * 0x100_0000, b2 * 0x1_0000);
    AddAdd(x, b3 * 0x100_0000 + b2 * 0x1_0000, b1 * 0x100);
    AddAdd(x, b3 * 0x100_0000 + b2 * 0x1_0000 + b1 * 0x100, b0);
  }

  lemma AddAdd(x: u32, y: nat, z: nat)
    requires y + z < U32
    ensures Add(Add(x, y), z) == Add(x, y + z)
  {
  }

  lemma {:induction false} WordsAt(ws: seq<u32>, j: nat)
    requires j < |ws|
    ensures LittleEndian(ws)[4 * j..4 * j + 4] == WordBytes(ws[j])
    ensures LittleEndian(ws)[4 * j..] == LittleEndian(ws[j..])
    decreases j
  {
    hide WordBytes;
    var b := LittleEndian(ws);
    if j == 0 {
      assert ws[0..] == ws;
    } else {
      WordsAt(ws[1..], j - 1);
      var r := LittleEndian(ws[1..]);
      assert b[4..] == r;
      assert b[4 * j..] == r[4 * (j - 1)..] && b[4 * j..4 * j + 4] == r[4 * (j - 1)..4 * (j - 1) + 4];
      assert ws[1..][j - 1..] == ws[j..];
    }
  }

  lemma ReadWords(ws: seq<u32>, j: nat)
    requires j < |ws|
    ensures ReadWord(LittleEndian(ws), 4 * j) == ws[j]
  {
    hide ReadWord, WordBytes, LittleEndian;
    WordsAt(ws, j);
    WordRoundTrip(ws[j]);
    var w := WordBytes(ws[j]);
    assert w[0..4] == w;
    ReadSlice(LittleEndian(ws), w, 4 * j, 0);
  }

  lemma AddFour(ws: seq<u32>, j: nat, x: u32)
    requires j <= |ws|
    ensures AddBytes(x, Four(LittleEndian(ws), 4 * j)) == if j < |ws| then Add(x, ws[j]) else x
  {
    hide AddBytes, WordBytes, Add;
    if j < |ws| {
      WordsAt(ws, j);
      AddBytesOfWord(x, ws[j]);
    } else {
      AddBytesOfWord(x, 0);
    }
  }

  /** Hashing the little-endian bytes of words is hashing the words. */
  lemma {:induction false} BytesAsWords(ws: seq<u32>, t: Triple)
    ensures HashBytes(LittleEndian(ws), t) == HashWords(ws, t)
    decreases |ws|
  {
    hide Mix, Final, AddBytes, ReadWord, Add, WordBytes, LittleEndian, Four;
    var k := LittleEndian(ws);
    if |ws| > 3 {
      ReadWords(ws, 0);
      ReadWords(ws, 1);
      ReadWords(ws, 2);
      WordsAt(ws, 3);
      BytesAsWords(ws[3..], Mix(AddWords(t, ws[0], ws[1], ws[2])));
    } else if |ws| > 0 {
      LastWords(ws, t);
    }
  }

  lemma LastWords(ws: seq<u32>, t: Triple)
    requires 0 < |ws| <= 3
    ensures HashBytes(LittleEndian(ws), t) == HashWords(ws, t)
  {
    hide Mix, Final, AddBytes, ReadWord, Add, WordBytes, LittleEndian, Four;
    AddFour(ws, 0, t.a);
    AddZero(t.b);
    AddZero(t.c);
    if |ws| > 1 {
      AddFour(ws, 1, t.b);
    } else {
      FourPast(ws, 4, t.b);
    }
    if |ws| > 2 {
      AddFour(ws, 2, t.c);
    } else {
      FourPast(ws, 8, t.c);
    }
  }

  lemma FourPast(ws: seq<u32>, i: nat, x: u32)
    requires i >= 4 * |ws|
    ensures AddBytes(x, Four(LittleEndian(ws), i)) == x
  {
  }

  /** `jhash` of the little-endian bytes of any word array is `jhash2` of the array. */
  lemma JhashIsJhash2(ws: seq<u32>, initval: u32)
    ensures HashBytes(LittleEndian(ws), Start(|LittleEndian(ws)|, initval)) == HashWords(ws, Start(4 * |ws|, initval))
  {
    BytesAsWords(ws, Start(4 * |ws|, initval));
  }

  // ----- the hashes, from their definition -----

  lemma StartIsSum(n: nat, initval: u32)
    ensures var v := (0xdeadbeef + n + initval) % 0x1_0000_0000; Start(n, initval) == Triple(v, v, v)
  {
    var s := 0xdeadbeef + n % U32;
    assert s % U32 == (0xdeadbeef + n) % U32;
  }

  /** More than three words: the first three are added and mixed in. */
  lemma LongHash(ws: seq<u32>, t: Triple)
    requires |ws| > 3
    ensures HashWords(ws, t) == HashWords(ws[3..], Mix(Triple(Add(t.a, ws[0]), Add(t.b, ws[1]), Add(t.c, ws[2]))))
  {
    hide Mix, Final, Add;
  }

  /** One to three words: they are added and finalized; without words the state is the hash. */
  lemma ShortHash(ws: seq<u32>, t: Triple)
    requires |ws| <= 3
    ensures ws == [] ==> HashWords(ws, t) == t.c
    ensures ws != [] ==>
              HashWords(ws, t) == Final(Triple(Add(t.a, ws[0]), if |ws| > 1 then Add(t.b, ws[1]) else t.b,
                                               if |ws| > 2 then Add(t.c, ws[2]) else t.c)).c
  {
    hide Mix, Final, Add;
    AddZero(t.b);
    AddZero(t.c);
  }

  /** More than twelve bytes: the first three words are added and mixed in. */
  lemma LongByteHash(k: seq<byte>, t: Triple)
    requires |k| > 12
    ensures HashBytes(k, t) ==
            HashBytes(k[12..],
                      Mix(Triple(Add(t.a, ReadWord(k, 0)), Add(t.b, ReadWord(k, 4)), Add(t.c, ReadWord(k, 8)))))
    ensures HashBytes([], t) == t.c
  {
    hide Mix, Final, Add, ReadWord;
  }

  /** The last one to twelve bytes count as words filled up with zeros. */
  lemma TailIsPadded(k: seq<byte>, t: Triple)
    requires 0 < |k| <= 12
    ensures var w := k + Zeros(12 - |k|);
            HashBytes(k, t) == Final(Triple(Add(t.a, ReadWord(w, 0)), Add(t.b, ReadWord(w, 4)),
                                            Add(t.c, ReadWord(w, 8)))).c
  {
    hide Final, AddBytes, ReadWord, Four, Add;
    PaddedFour(k, 0, t.a);
    PaddedFour(k, 4, t.b);
    PaddedFour(k, 8, t.c);
  }

  function Zeros(n: nat): (z: seq<byte>)
    ensures |z| == n
  {
    seq(n, _ => 0)
  }

  lemma PaddedFour(k: seq<byte>, i: nat, x: u32)
    requires 0 < |k| <= 12 && i <= 8
    ensures AddBytes(x, Four(k, i)) == Add(x, ReadWord(k + Zeros(12 - |k|), i))
  {
    hide Add, AddBytes;
    var w, f := k + Zeros(12 - |k|), Four(k, i);
    assert forall j :: 0 <= j < 4 ==> w[i + j] == if j < |f| then f[j] else 0;
    AddBytesPadded(x, f, w[i..i + 4]);
    ReadSlice(w, w[i..i + 4], i, 0);
  }

  lemma AddBytesPadded(x: u32, f: seq<byte>, w: seq<byte>)
    requires |f| <= 4 == |w| && forall j :: 0 <= j < 4 ==> w[j] == if j < |f| then f[j] else 0
    ensures AddBytes(x, f) == Add(x, ReadWord(w, 0))
  {
    hide Add;
    var b0: int, b1: int, b2: int, b3: int := w[0], w[1], w[2], w[3];
    AddZero(x);
    AddAdd(x, b3 * 0x100_0000, b2 * 0x1_0000);
    AddAdd(x, b3 * 0x100_0000 + b2 * 0x1_0000, b1 * 0x100);
    AddAdd(x, b3 * 0x100_0000 + b2 * 0x1_0000 + b1 * 0x100, b0);
  }

  // ----- fixed numbers of words -----

  function Nwords(a: u32, b: u32, c: u32, initval: u32): u32 {
    Final(Triple(Add(a, initval), Add(b, initval), Add(c, initval))).c
  }

  function Jhash3words(a: u32, b: u32, c: u32, initval: u32): u32 {
    Nwords(a, b, c, Add(Add(initval, INITVAL), 12))
  }

  function Jhash2words(a: u32, b: u32, initval: u32): u32 {
    Nwords(a, b, 0, Add(Add(initval, INITVAL), 8))
  }

  function Jhash1word(a: u32, initval: u32): u32 {
    Nwords(a, 0, 0, Add(Add(initval, INITVAL), 4))
  }

  /** The forms for one, two and three words are `jhash2` on arrays of that length. */
  lemma NwordsAreJhash2(a: u32, b: u32, c: u32, initval: u32)
    ensures Jhash3words(a, b, c, initval) == HashWords([a, b, c], Start(12, initval))
    ensures Jhash2words(a, b, initval) == HashWords([a, b], Start(8, initval))
    ensures Jhash1word(a, initval) == HashWords([a], Start(4, initval))
  {
    hide Final;
    StartIs(12, initval);
    StartIs(8, initval);
    StartIs(4, initval);
  }

  lemma StartIs(n: u32, initval: u32)
    ensures Start(n, initval).a == Add(Add(initval, INITVAL), n)
  {
    hide Add;
    AddCommutes(INITVAL, n, initval);
  }

  lemma AddCommutes(x: u32, y: u32, z: u32)
    ensures Add(Add(x, y), z) == Add(Add(z, x), y)
  {
    var s, t := x + y, z + x;
    assert s % U32 == if s < U32 then s else s - U32;
    assert t % U32 == if t < U32 then t else t - U32;
  }
}
