/** The type section as bytes: how descriptors are laid out, how the section is parsed,
    and how pass 5 of the deduplicator compacts it in place. */
module BtfSection {
  import opened Common
  import opened Memory
  import opened BtfTypes
  import opened CanonMap
  import opened OutputGraph

  // ----- the info word -----

  /** The kind of an info word; codes 14 and 15 are not assigned. */
  function KindOf(code: nat): Kind
    requires code < 16
  {
    match code
    case 0 => UNKN case 1 => INT case 2 => PTR case 3 => ARRAY case 4 => STRUCT
    case 5 => UNION case 6 => ENUM case 7 => FWD case 8 => TYPEDEF case 9 => VOLATILE
    case 10 => CONST case 11 => RESTRICT case 12 => FUNC case 13 => FUNC_PROTO
    case _ => OTHER(code)
  }

  /** BTF_INFO_KIND, BTF_INFO_VLEN and BTF_INFO_KFLAG; `spare` is what the unused bits add. */
  function DecodeInfo(w: u32): Info {
    var kind, vlen, kflag := w / 0x100_0000 % 16, w % 0x1_0000, w / 0x8000_0000;
    Info(KindOf(kind), vlen, kflag == 1, w - vlen - kind * 0x100_0000 - kflag * 0x8000_0000)
  }

  /** Decoding loses nothing: two info words with equal fields are the same word. */
  lemma DecodeInfoExact(w: u32)
    ensures InfoWord(DecodeInfo(w)) == w
  {
  }

  /** The kind is in bits 24 to 27, the flag on top, and the number of slots in the low half. */
  lemma InfoWordIs(w: u32)
    ensures DecodeInfo(w).vlen == w % 0x1_0000 && (DecodeInfo(w).kflag <==> w >= 0x8000_0000)
    ensures DecodeInfo(w).kind == KindOf(w / 0x100_0000 % 0x10)
  {
  }

  /** The numbers of the kinds, and what becomes of each. */
  lemma KindNumbers()
    ensures KindOf(1) == INT && KindOf(2) == PTR && KindOf(3) == ARRAY && KindOf(4) == STRUCT && KindOf(5) == UNION
    ensures KindOf(6) == ENUM && KindOf(7) == FWD && KindOf(8) == TYPEDEF && KindOf(9) == VOLATILE
    ensures KindOf(10) == CONST && KindOf(11) == RESTRICT && KindOf(12) == FUNC && KindOf(13) == FUNC_PROTO
    ensures forall c: nat :: c < 16 ==> (KnownKind(KindOf(c)) <==> 1 <= c <= 13)
    ensures forall c: nat :: c < 16 ==> (IsPrim(KindOf(c)) <==> c == 1 || c == 6 || c == 7)
    ensures forall c: nat :: c < 16 ==> (IsComposite(KindOf(c)) <==> c == 4 || c == 5)
    ensures forall c: nat :: c < 16 ==> (IsRef(KindOf(c)) <==> c == 2 || c == 3 || 8 <= c <= 13)
  {
  }

  // ----- descriptors -----

  /** The number of words after the three common ones, of a known kind. */
  function TailWords(i: Info): nat {
    if i.kind == INT then 1
    else if i.kind == ARRAY then 3
    else if i.kind == ENUM || i.kind == FUNC_PROTO then 2 * i.vlen
    else if IsComposite(i.kind) then 3 * i.vlen
    else 0
  }

  /** The descriptor that a block of words holds. */
  function Decode(ws: seq<u32>): (t: BtfType)
    requires IsBlock(ws)
    ensures WfType(t) && t.info == DecodeInfo(ws[1])
  {
    var info := DecodeInfo(ws[1]);
    var (n, k) := (info.vlen, info.kind);
    if IsSingleRef(k) || k == FWD then BtfType(ws[0], info, 0, [], [], [ws[2]])
    else if k == INT then BtfType(ws[0], info, ws[2], [], [ws[3]], [])
    else if k == ENUM then BtfType(ws[0], info, ws[2], Column(ws, 2, 0, n), Column(ws, 2, 1, n), [])
    else if k == ARRAY then BtfType(ws[0], info, ws[2], [], [ws[5]], [ws[3], ws[4]])
    else if IsComposite(k) then BtfType(ws[0], info, ws[2],
                                            Column(ws, 3, 0, n), Column(ws, 3, 2, n), Column(ws, 3, 1, n))
    else if k == FUNC_PROTO then BtfType(ws[0], info, 0, Column(ws, 2, 0, n), [], [ws[2]] + Column(ws, 2, 1, n))
    else BtfType(ws[0], info, ws[2], [], [], [])
  }

  /** Field `c` of each of the `n` records of `stride` words that follow the common words. */
  function Column(ws: seq<u32>, stride: nat, c: nat, n: nat): (r: seq<nat>)
    requires stride == 2 || stride == 3
    requires c < stride && |ws| == 3 + stride * n
    ensures |r| == n
  {
    seq(n, j requires 0 <= j < n => ws[3 + stride * j + c])
  }

  /** Where the fields of each kind lie. */
  lemma FieldsAre(ws: seq<u32>)
    requires IsBlock(ws)
    ensures var t := Decode(ws);
            && t.nameOff == ws[0] && (KnownKind(t.info.kind) && !HasTypeWord(t.info.kind) ==> t.size == ws[2])
            && (HasTypeWord(t.info.kind) ==> t.refs[0] == ws[2])
            && (t.info.kind == INT ==> |ws| == 4 && t.slotVals == [ws[3]])
            && (t.info.kind == ARRAY ==> |ws| == 6 && t.refs == [ws[3], ws[4]] && t.slotVals == [ws[5]])
  {
  }

  lemma SlotsAre(ws: seq<u32>, j: nat)
    requires IsBlock(ws) && j < DecodeInfo(ws[1]).vlen
    ensures var (t, k) := (Decode(ws), DecodeInfo(ws[1]).kind);
            && (k == ENUM ==> 5 + 2 * j <= |ws| && t.slotNames[j] == ws[3 + 2 * j] && t.slotVals[j] == ws[4 + 2 * j])
            && (k == FUNC_PROTO ==>
                  5 + 2 * j <= |ws| && t.slotNames[j] == ws[3 + 2 * j] && t.refs[1 + j] == ws[4 + 2 * j])
            && (k == STRUCT || k == UNION ==>
                  && 6 + 3 * j <= |ws| && t.slotNames[j] == ws[3 + 3 * j] && t.refs[j] == ws[4 + 3 * j]
                  && t.slotVals[j] == ws[5 + 3 * j])
  {
    hide DecodeInfo, WfType;
    var i := DecodeInfo(ws[1]);
    if i.kind == STRUCT || i.kind == UNION {
      assert 3 + 3 * j + 2 < |ws|;
    }
  }

  predicate IsBlock(ws: seq<u32>) {
    |ws| >= 3 && |ws| == 3 + TailWords(DecodeInfo(ws[1]))
  }

  /** Decoding is faithful: different blocks are different descriptors, so comparing
      decoded fields is comparing the words in memory. */
  lemma DecodeInjective(ws: seq<u32>, vs: seq<u32>)
    requires IsBlock(ws) && IsBlock(vs) && Decode(ws) == Decode(vs)
    ensures ws == vs
  {
    hide DecodeInfo, WfType, Column;
    DecodeHead(ws, vs);
    var t := Decode(ws);
    var (n, k) := (t.info.vlen, t.info.kind);
    if k == ENUM {
      ColumnsDetermine(ws, vs, 2, n);
    } else if k == FUNC_PROTO {
      assert t.refs[1..] == Column(ws, 2, 1, n) == Column(vs, 2, 1, n);
      ColumnsDetermine(ws, vs, 2, n);
    } else if IsComposite(k) {
      ColumnsDetermine(ws, vs, 3, n);
    }
  }

  lemma DecodeHead(ws: seq<u32>, vs: seq<u32>)
    requires IsBlock(ws) && IsBlock(vs) && Decode(ws) == Decode(vs)
    ensures |ws| == |vs| && ws[..3] == vs[..3] && DecodeInfo(ws[1]) == DecodeInfo(vs[1]) == Decode(ws).info
  {
    hide DecodeInfo, WfType, Column, InfoWord;
    DecodeInfoExact(ws[1]);
    DecodeInfoExact(vs[1]);
    var t, u := Decode(ws), Decode(vs);
    assert HasTypeWord(t.info.kind) ==> t.refs[0] == ws[2] && u.refs[0] == vs[2];
  }

  lemma ColumnsDetermine(ws: seq<u32>, vs: seq<u32>, stride: nat, n: nat)
    requires stride == 2 || stride == 3
    requires |ws| == |vs| == 3 + stride * n && ws[..3] == vs[..3]
    requires forall c :: 0 <= c < stride ==> Column(ws, stride, c, n) == Column(vs, stride, c, n)
    ensures ws == vs
  {
    forall i | 3 <= i < |ws| ensures ws[i] == vs[i] {
      var j, c := (i - 3) / stride, (i - 3) % stride;
      assert Column(ws, stride, c, n)[j] == Column(vs, stride, c, n)[j];
    }
    assert forall i :: 0 <= i < 3 ==> ws[i] == ws[..3][i] == vs[..3][i];
  }

  // ----- descriptors in memory -----

  function InfoAt(b: seq<byte>, p: nat): Info
    requires p + 8 <= |b|
  {
    DecodeInfo(ReadWord(b, p + 4))
  }

  /** `btf_type_size`: the size in bytes of the descriptor at `p`, or an error. */
  function SizeAt(b: seq<byte>, p: nat): (r: int)
    requires p + 8 <= |b|
    ensures r >= 12 || r == -EINVAL
  {
    if KnownKind(InfoAt(b, p).kind) then 12 + 4 * TailWords(InfoAt(b, p)) else -EINVAL
  }

  predicate BlockAt(b: seq<byte>, p: nat) {
    p + 8 <= |b| && SizeAt(b, p) > 0 && p + SizeAt(b, p) <= |b|
  }

  function WordsAt(b: seq<byte>, p: nat): (ws: seq<u32>)
    requires BlockAt(b, p)
    ensures IsBlock(ws)
  {
    BlockOfWords(b, p);
    WordSeq(b, p, SizeAt(b, p) / 4)
  }

  /** The `n` words from `p` on. */
  function WordSeq(b: seq<byte>, p: nat, n: nat): (ws: seq<u32>)
    requires p + 4 * n <= |b|
    ensures |ws| == n && forall j :: 0 <= j < n ==> ws[j] == ReadWord(b, p + 4 * j)
  {
    seq(n, j requires 0 <= j < n => ReadWord(b, p + 4 * j))
  }

  lemma BlockOfWords(b: seq<byte>, p: nat)
    requires BlockAt(b, p)
    ensures SizeAt(b, p) >= 12 && p + 4 * (SizeAt(b, p) / 4) <= |b| && IsBlock(WordSeq(b, p, SizeAt(b, p) / 4))
  {
    hide DecodeInfo, ReadWord;
    var ws := WordSeq(b, p, SizeAt(b, p) / 4);
    assert ws[1] == ReadWord(b, p + 4 * 1);
  }

  function TypeAt(b: seq<byte>, p: nat): BtfType
    requires BlockAt(b, p)
  {
    Decode(WordsAt(b, p))
  }

  /** The block at `q` of `c` is byte for byte the block at `p` of `b`. */
  ghost predicate SameBlock(b: seq<byte>, p: nat, c: seq<byte>, q: nat) {
    && BlockAt(b, p) && q + SizeAt(b, p) <= |c|
    && c[q..q + SizeAt(b, p)] == b[p..p + SizeAt(b, p)]
  }

  lemma SameWord(b: seq<byte>, p: nat, c: seq<byte>, q: nat, j: nat)
    requires SameBlock(b, p, c, q) && 4 * j + 4 <= SizeAt(b, p)
    ensures ReadWord(c, q + 4 * j) == ReadWord(b, p + 4 * j)
  {
    hide SizeAt;
    var n := SizeAt(b, p);
    var u, v := b[p..p + n], c[q..q + n];
    assert forall x :: 0 <= x < n ==> b[p + x] == u[x] && c[q + x] == v[x];
  }

  lemma SameBlockSameType(b: seq<byte>, p: nat, c: seq<byte>, q: nat)
    requires SameBlock(b, p, c, q)
    ensures BlockAt(c, q) && SizeAt(c, q) == SizeAt(b, p) && TypeAt(c, q) == TypeAt(b, p)
  {
    hide DecodeInfo, Decode, ReadWord;
    SameWord(b, p, c, q, 1);
    forall j | 0 <= j < SizeAt(b, p) / 4 ensures ReadWord(c, q + 4 * j) == ReadWord(b, p + 4 * j) {
      SameWord(b, p, c, q, j);
    }
    assert WordsAt(c, q) == WordsAt(b, p);
  }

  /** Where descriptor `i` starts; past the last one, where the section ends. */
  function Pos(offs: seq<nat>, end: nat, i: nat): nat {
    if i < |offs| then offs[i] else end
  }

  /** Descriptors 1 to the last lie back to back and end at `end`. */
  ghost predicate Tiled(b: seq<byte>, offs: seq<nat>, end: nat) {
    forall i :: 1 <= i < |offs| ==> TiledAt(b, offs, end, i)
  }

  ghost predicate TiledAt(b: seq<byte>, offs: seq<nat>, end: nat, i: nat)
    requires i < |offs|
  {
    offs[i] + 8 <= |b| && SizeAt(b, offs[i]) > 0 && offs[i] + SizeAt(b, offs[i]) == Pos(offs, end, i + 1)
  }

  // ----- parsing -----

  /** The walk reads the first two words of each descriptor it gets to without a bounds check,
      so they must be there. */
  predicate Walkable(b: seq<byte>, next: nat, strOff: nat)
    decreases strOff - next
  {
    next < strOff ==> next + 8 <= |b| && (SizeAt(b, next) > 0 ==> Walkable(b, next + SizeAt(b, next), strOff))
  }

  /** Where the walk stops: at a descriptor of unknown kind, or past the last one. */
  function WalkEnd(b: seq<byte>, next: nat, strOff: nat): nat
    requires Walkable(b, next, strOff)
    decreases strOff - next
  {
    if next < strOff && SizeAt(b, next) > 0 then WalkEnd(b, next + SizeAt(b, next), strOff) else next
  }

  /** `btf_parse_type_sec`.  Entry 0 of the index is void.  `end` is where the walk stopped:
      the last descriptor may reach past the section. */
  method ParseTypeSec(b: seq<byte>, typeOff: nat, strOff: nat) returns (err: int, offs: seq<nat>, ghost end: nat)
    requires Walkable(b, typeOff, strOff)
    ensures |offs| > 0 && Tiled(b, offs, end) && typeOff <= end == WalkEnd(b, typeOff, strOff)
    ensures Pos(offs, end, 1) == typeOff
    ensures forall i :: 1 <= i < |offs| ==> offs[i] < strOff
    ensures err == 0 ==> end >= strOff
    ensures err != 0 ==>
              err == -EINVAL && end < strOff && end + 8 <= |b| && !KnownKind(InfoAt(b, end).kind)
  {
    hide SizeAt, InfoAt;
    offs := [0];
    var next := typeOff;
    end := typeOff;
    while next < strOff
      invariant |offs| > 0 && Tiled(b, offs, next) && typeOff <= next == end && Pos(offs, next, 1) == typeOff
      invariant forall i :: 1 <= i < |offs| ==> offs[i] < strOff
      invariant Walkable(b, next, strOff) && WalkEnd(b, next, strOff) == WalkEnd(b, typeOff, strOff)
      decreases strOff - next
    {
      var size := SizeAt(b, next);
      SizeAtFails(b, next);
      if size < 0 {
        return size, offs, next;
      }
      TiledExtend(b, offs, next, size);
      offs := offs + [next];
      next := next + size;
      end := next;
    }
    err := 0;
  }

  /** The descriptors fill the section up to the strings exactly when the walk stops there. */
  lemma TilesExactlyIff(b: seq<byte>, offs: seq<nat>, end: nat, typeOff: nat, strOff: nat)
    requires |offs| > 0 && Tiled(b, offs, end) && Pos(offs, end, 1) == typeOff
    ensures Tiled(b, offs, strOff) && Pos(offs, strOff, 1) == typeOff <==> end == strOff
  {
    hide SizeAt;
    var last := |offs| - 1;
    if last > 0 && Tiled(b, offs, strOff) {
      assert TiledAt(b, offs, end, last) && TiledAt(b, offs, strOff, last);
    }
  }

  /** An accepted section whose only descriptor, an INT of 16 bytes, reaches past the strings
      at 12. */
  lemma LastMayReachPast()
    ensures var b: seq<byte> := [0, 0, 0, 0, 0, 0, 0, 1, 4, 0, 0, 0, 32, 0, 0, 0];
            Walkable(b, 0, 12) && WalkEnd(b, 0, 12) == 16
  {
    var b: seq<byte> := [0, 0, 0, 0, 0, 0, 0, 1, 4, 0, 0, 0, 32, 0, 0, 0];
    assert ReadWord(b, 4) == 0x100_0000;
    assert DecodeInfo(0x100_0000) == Info(INT, 0, false, 0);
    assert SizeAt(b, 0) == 16;
  }

  lemma SizeAtFails(b: seq<byte>, p: nat)
    requires p + 8 <= |b|
    ensures if KnownKind(InfoAt(b, p).kind) then SizeAt(b, p) >= 12 else SizeAt(b, p) == -EINVAL
  {
  }

  lemma TiledExtend(b: seq<byte>, offs: seq<nat>, next: nat, size: nat)
    requires |offs| > 0 && Tiled(b, offs, next) && next + 8 <= |b| && SizeAt(b, next) == size > 0
    ensures Tiled(b, offs + [next], next + size) && Pos(offs + [next], next + size, 1) == Pos(offs, next, 1)
  {
    hide SizeAt;
    var offs', end' := offs + [next], next + size;
    forall i | 1 <= i < |offs'| ensures TiledAt(b, offs', end', i) {
      assert i < |offs| ==> TiledAt(b, offs, next, i);
    }
  }

  // ----- compaction in place -----

  /** What memory holds after `memmove` of `len` bytes from `src` down to `dst`. */
  function Moved(b: seq<byte>, dst: nat, src: nat, len: nat): (r: seq<byte>)
    requires dst <= src && src + len <= |b|
    ensures |r| == |b| && r[..dst] == b[..dst] && r[dst..dst + len] == b[src..src + len]
    ensures r[dst + len..] == b[dst + len..]
  {
    b[..dst] + b[src..src + len] + b[dst + len..]
  }

  lemma MovedMore(b: seq<byte>, dst: nat, src: nat, k: nat)
    requires dst <= src && src + k < |b|
    ensures Moved(b, dst, src, k)[dst + k := b[src + k]] == Moved(b, dst, src, k + 1)
  {
  }

  method Memmove(mem: array<byte>, dst: nat, src: nat, len: nat)
    requires dst <= src && src + len <= mem.Length
    modifies mem
    ensures mem[..] == Moved(old(mem[..]), dst, src, len)
  {
    ghost var b := mem[..];
    var k := 0;
    while k < len
      invariant 0 <= k <= len
      invariant mem[..] == Moved(b, dst, src, k)
    {
      assert mem[src + k] == Moved(b, dst, src, k)[src + k] == b[src + k];
      mem[dst + k] := mem[src + k];
      assert mem[..] == Moved(b, dst, src, k)[dst + k := b[src + k]];
      MovedMore(b, dst, src, k);
      k := k + 1;
    }
  }

  ghost predicate PackedAt(b0: seq<byte>, index: seq<nat>, b: seq<byte>, offs: seq<nat>, back: seq<nat>, p: nat, k: nat)
    requires 0 < k < |back| <= |offs|
  {
    && 0 < back[k] < |index| && SameBlock(b0, index[back[k]], b, offs[k])
    && var e := offs[k] + SizeAt(b0, index[back[k]]);
    && e <= p && e == (if k + 1 < |back| then offs[k + 1] else p)
  }

  /** The canonical descriptors among the first `i` have been moved down; nothing from
      descriptor `i` on has been touched. */
  ghost predicate Packed(b0: seq<byte>, index: seq<nat>, end: nat, b: seq<byte>, offs: seq<nat>, back: seq<nat>,
                         p: nat, i: nat) {
    && |b| == |b0| && |offs| == |index| && 1 <= |back| <= i <= |index|
    && p <= Pos(index, end, i) <= |b| && b[Pos(index, end, i)..] == b0[Pos(index, end, i)..]
    && (forall x :: i <= x < |index| ==> offs[x] == index[x])
    && (forall k :: 1 <= k < |back| ==> PackedAt(b0, index, b, offs, back, p, k))
    && (if |back| > 1 then offs[1] else p) == Pos(index, end, 1)
  }

  lemma TiledBlock(b0: seq<byte>, index: seq<nat>, end: nat, i: nat)
    requires Tiled(b0, index, end) && 1 <= i < |index| && end <= |b0| && Pos(index, end, i + 1) <= |b0|
    ensures BlockAt(b0, index[i]) && SizeAt(b0, index[i]) >= 12
    ensures index[i] + SizeAt(b0, index[i]) == Pos(index, end, i + 1)
  {
    hide InfoAt;
    assert TiledAt(b0, index, end, i);
  }

  /** Block ends never pass the end of the section. */
  lemma {:induction false} TiledBelow(b0: seq<byte>, index: seq<nat>, end: nat, i: nat)
    requires Tiled(b0, index, end) && 1 <= i <= |index|
    ensures Pos(index, end, i) <= end
    decreases |index| - i
  {
    hide SizeAt, InfoAt;
    if i < |index| {
      assert TiledAt(b0, index, end, i);
      TiledBelow(b0, index, end, i + 1);
    }
  }

  lemma UntouchedBlock(b0: seq<byte>, b: seq<byte>, index: seq<nat>, end: nat, i: nat)
    requires |b| == |b0| && Tiled(b0, index, end) && 1 <= i < |index| && end <= |b0|
    requires Pos(index, end, i) <= |b| && b[Pos(index, end, i)..] == b0[Pos(index, end, i)..]
    ensures index[i] + 8 <= |b| && SizeAt(b, index[i]) == SizeAt(b0, index[i]) >= 12
    ensures SameBlock(b0, index[i], b, index[i])
    ensures Pos(index, end, i + 1) == index[i] + SizeAt(b0, index[i]) <= end
  {
    hide SizeAt, InfoAt;
    TiledBelow(b0, index, end, i + 1);
    TiledBlock(b0, index, end, i);
    var n := SizeAt(b0, index[i]);
    assert b[index[i]..index[i] + n] == b[index[i]..][..n] == b0[index[i]..][..n] == b0[index[i]..index[i] + n];
    SameBlockSameType(b0, index[i], b, index[i]);
  }

  lemma SameBlockMoved(b0: seq<byte>, a: nat, b: seq<byte>, q: nat, dst: nat, src: nat, len: nat)
    requires SameBlock(b0, a, b, q) && dst <= src && src + len <= |b|
    ensures q + SizeAt(b0, a) <= dst ==> SameBlock(b0, a, Moved(b, dst, src, len), q)
    ensures q == src && SizeAt(b0, a) == len ==> SameBlock(b0, a, Moved(b, dst, src, len), dst)
  {
  }

  lemma PackOne(b0: seq<byte>, index: seq<nat>, end: nat, b: seq<byte>, offs: seq<nat>, back: seq<nat>, p: nat, i: nat)
    requires Packed(b0, index, end, b, offs, back, p, i) && Tiled(b0, index, end) && i < |index| && end <= |b0|
    ensures index[i] + 8 <= |b| && SizeAt(b, index[i]) == SizeAt(b0, index[i]) >= 12
    ensures index[i] + SizeAt(b0, index[i]) <= |b|
    ensures var n := SizeAt(b0, index[i]);
            Packed(b0, index, end, Moved(b, p, index[i], n), offs[|back| := p], back + [i], p + n, i + 1)
  {
    hide SizeAt, BlockAt;
    UntouchedBlock(b0, b, index, end, i);
    var n := SizeAt(b0, index[i]);
    var b', offs', back', p' := Moved(b, p, index[i], n), offs[|back| := p], back + [i], p + n;
    SameBlockMoved(b0, index[i], b, index[i], p, index[i], n);
    forall k | 1 <= k < |back'| ensures PackedAt(b0, index, b', offs', back', p', k) {
      if k < |back| {
        assert PackedAt(b0, index, b, offs, back, p, k);
        SameBlockMoved(b0, index[back[k]], b, offs[k], p, index[i], n);
      }
    }
    var q := Pos(index, end, i + 1);
    assert b'[q..] == b'[p + n..][q - (p + n)..] == b[p + n..][q - (p + n)..]
           == b[q..] == b[index[i]..][n..] == b0[index[i]..][n..] == b0[q..];
  }

  lemma PackSkip(b0: seq<byte>, index: seq<nat>, end: nat, b: seq<byte>, offs: seq<nat>, back: seq<nat>, p: nat, i: nat)
    requires Packed(b0, index, end, b, offs, back, p, i) && Tiled(b0, index, end) && i < |index| && end <= |b0|
    ensures Packed(b0, index, end, b, offs, back, p, i + 1)
  {
    hide SizeAt, BlockAt;
    UntouchedBlock(b0, b, index, end, i);
    var n, q := SizeAt(b0, index[i]), Pos(index, end, i + 1);
    assert b[q..] == b[index[i]..][n..] == b0[index[i]..][n..] == b0[q..];
  }

  /** The bytes `from` to `from + n`. */
  function Bytes(b: seq<byte>, from: nat, n: nat): seq<byte>
    requires from + n <= |b|
  {
    b[from..from + n]
  }

  /** `btf_dedup_compact_types` on the bytes of the section.  `index` holds where each
      descriptor starts and `ids` becomes the new numbering.  The string section, which
      follows, is moved down to where the types now end. */
  method CompactSection(mem: array<byte>, index: seq<nat>, canon: seq<nat>, end: nat, strOff: nat, strLen: nat)
    returns (offs: seq<nat>, ids: seq<nat>, p: nat, ghost back: seq<nat>)
    requires 0 < |index| == |canon| <= MAX_ID + 1
    requires Tiled(mem[..], index, end) && end <= strOff && strOff + strLen <= mem.Length
    modifies mem
    ensures Numbering(canon, ids, back, |canon|) && |offs| == |back|
    ensures Tiled(mem[..], offs, p) && p <= end && Pos(offs, p, 1) == Pos(index, end, 1)
    ensures forall k :: 1 <= k < |offs| ==>
              && 0 < back[k] < |index| && SameBlock(old(mem[..]), index[back[k]], mem[..], offs[k])
              && BlockAt(mem[..], offs[k]) && TypeAt(mem[..], offs[k]) == TypeAt(old(mem[..]), index[back[k]])
    ensures p + strLen <= mem.Length && Bytes(mem[..], p, strLen) == Bytes(old(mem[..]), strOff, strLen)
  {
    hide Numbering, Packed, Tiled, SizeAt, SameBlock, Moved;
    ghost var b0 := mem[..];
    ids := Unnumbered(|canon|);
    offs, back := index, [0];
    NumberingStarts(canon, ids, back);
    var next := 1;
    p := Pos(index, end, 1);
    PackNothing(b0, index, end);
    var i := 1;
    while i < |canon|
      invariant 1 <= i <= |canon| == |ids| == |index| && next == |back| <= i
      invariant Numbering(canon, ids, back, i) && Packed(b0, index, end, mem[..], offs, back, p, i)
    {
      PackedSizes(b0, index, end, mem[..], offs, back, p, i);
      if canon[i] == i {
        NumberOne(canon, ids, back, i);
        PackOne(b0, index, end, mem[..], offs, back, p, i);
        var len := SizeAt(mem[..], offs[i]);
        Memmove(mem, p, offs[i], len);
        ids := ids[i := next];
        offs := offs[next := p];
        back := back + [i];
        p := p + len;
        next := next + 1;
      } else {
        NumberSkip(canon, ids, back, i);
        PackSkip(b0, index, end, mem[..], offs, back, p, i);
      }
      i := i + 1;
    }
    PackedSizes(b0, index, end, mem[..], offs, back, p, i);
    ghost var b1 := mem[..];
    StringsUntouched(b0, index, end, b1, offs, back, p, strOff, strLen);
    Memmove(mem, p, strOff, strLen);
    PackedResult(b0, index, end, b1, offs, back, p, strOff, strLen);
    offs := offs[..next];
  }

  lemma PackNothing(b0: seq<byte>, index: seq<nat>, end: nat)
    requires Tiled(b0, index, end) && |index| > 0 && end <= |b0|
    ensures Packed(b0, index, end, b0, index, [0], Pos(index, end, 1), 1)
  {
    TiledBelow(b0, index, end, 1);
  }

  lemma PackedSizes(b0: seq<byte>, index: seq<nat>, end: nat, b: seq<byte>, offs: seq<nat>, back: seq<nat>, p: nat,
                    i: nat)
    requires Packed(b0, index, end, b, offs, back, p, i) && end <= |b0|
    ensures |b| == |b0| && |offs| == |index| && p <= Pos(index, end, i) && |back| <= |offs|
    ensures i < |index| ==> offs[i] == index[i]
  {
  }

  lemma StringsUntouched(b0: seq<byte>, index: seq<nat>, end: nat, b: seq<byte>, offs: seq<nat>, back: seq<nat>,
                         p: nat, strOff: nat, strLen: nat)
    requires Packed(b0, index, end, b, offs, back, p, |index|) && end <= strOff && strOff + strLen <= |b0|
    ensures |b| == |b0| && p <= end && Bytes(b, strOff, strLen) == Bytes(b0, strOff, strLen)
  {
  }

  /** Moving the strings leaves the packed descriptors alone. */
  lemma PackedResult(b0: seq<byte>, index: seq<nat>, end: nat, b: seq<byte>, offs: seq<nat>, back: seq<nat>, p: nat,
                     strOff: nat, strLen: nat)
    requires Packed(b0, index, end, b, offs, back, p, |index|) && p <= strOff && strOff + strLen <= |b0|
    ensures |b| == |b0| && |back| <= |offs|
    ensures var b', offs' := Moved(b, p, strOff, strLen), offs[..|back|];
            && Tiled(b', offs', p) && Pos(offs', p, 1) == Pos(index, end, 1)
            && forall k :: 1 <= k < |offs'| ==>
                 && 0 < back[k] < |index| && SameBlock(b0, index[back[k]], b', offs'[k])
                 && BlockAt(b', offs'[k]) && TypeAt(b', offs'[k]) == TypeAt(b0, index[back[k]])
  {
    hide SizeAt, BlockAt, TypeAt;
    var b', offs' := Moved(b, p, strOff, strLen), offs[..|back|];
    forall k | 1 <= k < |offs'|
      ensures 0 < back[k] < |index| && SameBlock(b0, index[back[k]], b', offs'[k]) && TiledAt(b', offs', p, k)
      ensures BlockAt(b', offs'[k]) && TypeAt(b', offs'[k]) == TypeAt(b0, index[back[k]])
    {
      assert PackedAt(b0, index, b, offs, back, p, k);
      SameBlockMoved(b0, index[back[k]], b, offs[k], p, strOff, strLen);
      SameBlockSameType(b0, index[back[k]], b', offs'[k]);
      BlockFits(b', offs'[k]);
    }
  }

  lemma BlockFits(b: seq<byte>, p: nat)
    requires BlockAt(b, p)
    ensures p + 8 <= |b| && SizeAt(b, p) > 0
  {
  }

  /** Compacting the bytes and compacting the graph read from them come to the same: where
      `types` was what the section held, the compacted section holds the compacted types. */
  lemma CompactionsAgree(b0: seq<byte>, index: seq<nat>, types: seq<BtfType>, canon: seq<nat>,
                         b: seq<byte>, offs: seq<nat>, ids: seq<nat>, back: seq<nat>,
                         n: seq<nat>, back': seq<nat>, kept: seq<BtfType>, k: nat)
    requires |types| == |index| == |canon| && Numbering(canon, ids, back, |canon|) && |offs| == |back|
    requires forall i :: 0 < i < |index| ==> BlockAt(b0, index[i]) && TypeAt(b0, index[i]) == types[i]
    requires forall j :: 1 <= j < |offs| ==>
               && 0 < back[j] < |index| && BlockAt(b0, index[back[j]])
               && BlockAt(b, offs[j]) && TypeAt(b, offs[j]) == TypeAt(b0, index[back[j]])
    requires Numbering(canon, n, back', |canon|) && Picked(types, kept, back') && 0 < k < |offs|
    ensures ids == n && |kept| == |offs| && TypeAt(b, offs[k]) == kept[k]
  {
    hide Numbering, BlockAt, TypeAt;
    NumberingIsUnique(canon, ids, back, n, back');
  }
}
