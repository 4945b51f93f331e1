/** Pass 1 of `btf__dedup`: the string section keeps one copy of every referenced
    string, and every visited reference is rewritten to the new offset. */
module BtfStrings {
  import opened Common
  import opened BtfTypes
  import opened EquivMeaning

  const NUL := '\0'

  /** An entry of the string index (`struct btf_str_ptr`). */
  datatype StrPtr = StrPtr(off: nat, newOff: nat, used: bool)

  /** A string section: it starts with the empty string and its last string ends. */
  predicate WfSection(data: string) {
    |data| > 0 && data[0] == NUL && data[|data| - 1] == NUL
  }

  /** `o` is the offset at which a string of the section starts. */
  predicate IsStart(data: string, o: nat) {
    o < |data| && (o == 0 || data[o - 1] == NUL)
  }

  function Str(data: string, p: StrPtr): string {
    StrAt(data, p.off)
  }

  // ----- strings inside a section -----

  lemma {:induction false} StrAtEnds(data: string, o: nat)
    requires o < |data| && data[|data| - 1] == NUL
    ensures o + |StrAt(data, o)| < |data| && data[o + |StrAt(data, o)|] == NUL
    ensures StrAt(data, o) == data[o..o + |StrAt(data, o)|] && NUL !in StrAt(data, o)
    decreases |data| - o
  {
    if data[o] != NUL {
      StrAtEnds(data, o + 1);
      var s := StrAt(data, o + 1);
      assert StrAt(data, o) == [data[o]] + s;
      assert data[o..o + 1 + |s|] == [data[o]] + data[o + 1..o + 1 + |s|];
    }
  }

  lemma {:induction false} StrAtPrefix(a: string, b: string, o: nat)
    requires o < |a| && a[|a| - 1] == NUL
    ensures StrAt(a + b, o) == StrAt(a, o)
    decreases |a| - o
  {
    if a[o] != NUL {
      StrAtPrefix(a, b, o + 1);
    }
  }

  lemma {:induction false} StrAtAppended(a: string, s: string)
    requires NUL !in s
    ensures StrAt(a + s + [NUL], |a|) == s
    decreases |s|
  {
    if s != [] {
      assert a + s + [NUL] == (a + [s[0]]) + s[1..] + [NUL];
      assert s[0] in s;
      StrAtAppended(a + [s[0]], s[1..]);
    }
  }

  // ----- strcmp order -----

  predicate StrLe(a: string, b: string) {
    a == [] || (b != [] && (a[0] < b[0] || (a[0] == b[0] && StrLe(a[1..], b[1..]))))
  }

  lemma {:induction false} StrLeTotal(a: string, b: string)
    ensures StrLe(a, b) || StrLe(b, a)
  {
    if a != [] && b != [] && a[0] == b[0] {
      StrLeTotal(a[1..], b[1..]);
    }
  }

  lemma {:induction false} StrLeTrans(a: string, b: string, c: string)
    requires StrLe(a, b) && StrLe(b, c)
    ensures StrLe(a, c)
  {
    if a != [] && a[0] == b[0] == c[0] {
      StrLeTrans(a[1..], b[1..], c[1..]);
    }
  }

  lemma {:induction false} StrLeAntisym(a: string, b: string)
    requires StrLe(a, b) && StrLe(b, a)
    ensures a == b
  {
    if a != [] && b != [] {
      StrLeAntisym(a[1..], b[1..]);
      assert a == [a[0]] + a[1..] && b == [b[0]] + b[1..];
    }
  }

  // ----- qsort, specified by what it guarantees -----

  ghost predicate TotalPreorder(le: (StrPtr, StrPtr) -> bool) {
    && (forall a, b :: le(a, b) || le(b, a))
    && (forall a, b, c :: le(a, b) && le(b, c) ==> le(a, c))
  }

  ghost predicate SortedBy(s: seq<StrPtr>, le: (StrPtr, StrPtr) -> bool) {
    forall i, j :: 0 <= i < j < |s| ==> le(s[i], s[j])
  }

  method Qsort(a: seq<StrPtr>, le: (StrPtr, StrPtr) -> bool) returns (r: seq<StrPtr>)
    requires TotalPreorder(le)
    ensures multiset(r) == multiset(a) && |r| == |a| && SortedBy(r, le)
  {
    r := [];
    var i := 0;
    while i < |a|
      invariant 0 <= i <= |a| && multiset(r) == multiset(a[..i]) && |r| == i && SortedBy(r, le)
    {
      assert a[..i + 1] == a[..i] + [a[i]];
      r := InsertSorted(r, a[i], le);
      i := i + 1;
    }
    assert a[..i] == a;
  }

  method InsertSorted(s: seq<StrPtr>, x: StrPtr, le: (StrPtr, StrPtr) -> bool) returns (r: seq<StrPtr>)
    requires TotalPreorder(le) && SortedBy(s, le)
    ensures multiset(r) == multiset(s) + multiset{x} && |r| == |s| + 1 && SortedBy(r, le)
  {
    hide TotalPreorder, SortedBy;
    var k := 0;
    while k < |s| && le(s[k], x)
      invariant 0 <= k <= |s| && forall i :: 0 <= i < k ==> le(s[i], x)
    {
      k := k + 1;
    }
    r := s[..k] + [x] + s[k..];
    assert s == s[..k] + s[k..];
    InsertKeepsSorted(s, k, x, le);
  }

  lemma InsertKeepsSorted(s: seq<StrPtr>, k: nat, x: StrPtr, le: (StrPtr, StrPtr) -> bool)
    requires TotalPreorder(le) && SortedBy(s, le) && k <= |s|
    requires (forall i :: 0 <= i < k ==> le(s[i], x)) && (k < |s| ==> !le(s[k], x))
    ensures SortedBy(s[..k] + [x] + s[k..], le)
  {
  }

  // ----- emitting one copy per group of equal strings -----

  /** The space that a list of strings takes, terminators included. */
  function Total(data: string, s: seq<StrPtr>): nat {
    if s == [] then 0 else Total(data, s[..|s| - 1]) + |Str(data, s[|s| - 1])| + 1
  }

  ghost predicate ByContent(data: string, s: seq<StrPtr>) {
    forall i, j :: 0 <= i < j < |s| ==> StrLe(Str(data, s[i]), Str(data, s[j]))
  }

  predicate SameEntry(p: StrPtr, q: StrPtr) {
    p.off == q.off && p.used == q.used
  }

  /** The used strings among the first `n` have been emitted into `out`, each once. */
  ghost predicate EmitOk(data: string, s: seq<StrPtr>, r: seq<StrPtr>, out: string, n: nat) {
    && n <= |s| == |r|
    && (forall j :: 0 <= j < |s| ==> SameEntry(r[j], s[j]))
    && (out == [] || out[|out| - 1] == NUL)
    && |out| <= Total(data, s[..n])
    && (forall j :: 0 <= j < n && s[j].used ==> r[j].newOff < |out| && StrAt(out, r[j].newOff) == Str(data, s[j]))
    && (forall j, l :: 0 <= j < l < n && s[j].used && s[l].used ==>
          (r[j].newOff == r[l].newOff <==> Str(data, s[j]) == Str(data, s[l])))
    && (forall j :: 0 <= j < n && s[j].used && Str(data, s[j]) == Str(data, s[0]) ==> r[j].newOff == 0)
  }

  /** Entries `lo` to `hi` hold the same string, and no entry before them does. */
  ghost predicate IsGroup(data: string, s: seq<StrPtr>, lo: nat, hi: nat) {
    && lo < hi <= |s|
    && (forall j :: lo <= j < hi ==> Str(data, s[j]) == Str(data, s[lo]))
    && (forall j :: 0 <= j < lo ==> Str(data, s[j]) != Str(data, s[lo]))
  }

  lemma NextGroup(data: string, s: seq<StrPtr>, lo: nat, hi: nat)
    requires ByContent(data, s) && IsGroup(data, s, lo, hi) && hi < |s| && Str(data, s[hi]) != Str(data, s[lo])
    ensures IsGroup(data, s, hi, hi + 1)
  {
    forall j | 0 <= j < hi ensures Str(data, s[j]) != Str(data, s[hi]) {
      if j < lo && Str(data, s[j]) == Str(data, s[hi]) {
        StrLeAntisym(Str(data, s[lo]), Str(data, s[hi]));
      }
    }
  }

  lemma {:induction false} TotalGrows(data: string, s: seq<StrPtr>, lo: nat, hi: nat)
    requires lo <= hi <= |s|
    ensures Total(data, s[..lo]) <= Total(data, s[..hi])
    ensures lo < hi ==> Total(data, s[..lo]) + |Str(data, s[lo])| + 1 <= Total(data, s[..hi])
    decreases hi - lo
  {
    if lo < hi {
      assert s[..lo + 1][..lo] == s[..lo];
      TotalGrows(data, s, lo + 1, hi);
    }
  }

  method SetNewOffs(s: seq<StrPtr>, lo: nat, hi: nat, off: nat) returns (r: seq<StrPtr>)
    requires lo <= hi <= |s|
    ensures |r| == |s|
    ensures forall j :: 0 <= j < |s| ==> r[j] == if lo <= j < hi then s[j].(newOff := off) else s[j]
  {
    r := s;
    var j := lo;
    while j < hi
      invariant lo <= j <= hi && |r| == |s|
      invariant forall k :: 0 <= k < |s| ==> r[k] == if lo <= k < j then s[k].(newOff := off) else s[k]
    {
      r := r[j := r[j].(newOff := off)];
      j := j + 1;
    }
  }

  lemma EmitSkipped(data: string, s: seq<StrPtr>, r: seq<StrPtr>, out: string, lo: nat, hi: nat)
    requires EmitOk(data, s, r, out, lo) && lo <= hi <= |s| && forall j :: lo <= j < hi ==> !s[j].used
    ensures EmitOk(data, s, r, out, hi)
  {
    hide StrAt, Total;
    TotalGrows(data, s, lo, hi);
  }

  lemma EmitGroupOk(data: string, s: seq<StrPtr>, r: seq<StrPtr>, r': seq<StrPtr>, out: string, lo: nat, hi: nat)
    requires EmitOk(data, s, r, out, lo) && IsGroup(data, s, lo, hi) && (lo == 0 ==> out == [])
    requires |r'| == |r| && forall j :: 0 <= j < |r| ==> r'[j] == if lo <= j < hi then r[j].(newOff := |out|) else r[j]
    requires NUL !in Str(data, s[lo])
    ensures EmitOk(data, s, r', out + Str(data, s[lo]) + [NUL], hi)
  {
    hide StrAt, Total;
    var str := Str(data, s[lo]);
    var out' := out + str + [NUL];
    TotalGrows(data, s, lo, hi);
    StrAtAppended(out, str);
    forall j | 0 <= j < hi && s[j].used ensures r'[j].newOff < |out'| && StrAt(out', r'[j].newOff) == Str(data, s[j]) {
      if j < lo {
        StrAtPrefix(out, str + [NUL], r[j].newOff);
        assert out' == out + (str + [NUL]);
      }
    }
  }

  /** Walks the sorted index group by group; a group in which some entry is used is
      copied to the output once, and all its entries get the offset of the copy. */
  method EmitGroups(data: string, s: seq<StrPtr>) returns (out: string, r: seq<StrPtr>)
    requires |s| > 0 && ByContent(data, s) && forall j :: 0 <= j < |s| ==> NUL !in Str(data, s[j])
    ensures EmitOk(data, s, r, out, |s|)
  {
    hide StrAt, Total, EmitOk, ByContent;
    out, r := [], s;
    EmitNothing(data, s);
    var grpIdx := 0;
    var grpUsed := s[0].used;
    var i := 1;
    while i <= |s|
      invariant 0 <= grpIdx < |s| && 1 <= i <= |s| + 1
      invariant if i <= |s| then EmitOk(data, s, r, out, grpIdx) && IsGroup(data, s, grpIdx, i)
                else EmitOk(data, s, r, out, |s|)
      invariant grpIdx == 0 && i <= |s| ==> out == []
      invariant i <= |s| ==> forall j :: grpIdx <= j < i && s[j].used ==> grpUsed
    {
      if i < |s| && Str(data, s[i]) == Str(data, s[grpIdx]) {
        grpUsed := grpUsed || s[i].used;
        i := i + 1;
        continue;
      }
      if grpUsed {
        ghost var r0 := r;
        EmitSizes(data, s, r, out, grpIdx);
        r := SetNewOffs(r, grpIdx, i, |out|);
        EmitGroupOk(data, s, r0, r, out, grpIdx, i);
        out := out + Str(data, s[grpIdx]) + [NUL];
      } else {
        EmitSkipped(data, s, r, out, grpIdx, i);
      }
      if i < |s| {
        NextGroup(data, s, grpIdx, i);
        grpIdx := i;
        grpUsed := s[i].used;
      }
      i := i + 1;
    }
  }

  lemma EmitNothing(data: string, s: seq<StrPtr>)
    requires |s| > 0
    ensures EmitOk(data, s, s, [], 0) && IsGroup(data, s, 0, 1)
  {
  }

  lemma EmitSizes(data: string, s: seq<StrPtr>, r: seq<StrPtr>, out: string, n: nat)
    requires EmitOk(data, s, r, out, n)
    ensures |r| == |s|
  {
  }

  // ----- the index -----

  /** The index lists the string starts below `upto`, in order, each once. */
  ghost predicate Indexed(data: string, ptrs: seq<StrPtr>, upto: nat) {
    && (forall j :: 0 <= j < |ptrs| ==> ptrs[j].off < upto && IsStart(data, ptrs[j].off))
    && (forall i, j :: 0 <= i < j < |ptrs| ==> ptrs[i].off < ptrs[j].off)
    && (forall o: nat :: o < upto && IsStart(data, o) ==> HasEntry(ptrs, o))
  }

  ghost predicate HasEntry(ptrs: seq<StrPtr>, o: nat) {
    exists j :: 0 <= j < |ptrs| && ptrs[j].off == o
  }

  method BuildIndex(data: string) returns (ptrs: seq<StrPtr>)
    requires WfSection(data)
    ensures Indexed(data, ptrs, |data|) && |ptrs| > 0 && ptrs[0].off == 0
    ensures Total(data, ptrs) == |data| && forall j :: 0 <= j < |ptrs| ==> !ptrs[j].used
  {
    hide StrAt, Total;
    ptrs := [];
    TotalEmpty(data);
    var p := 0;
    while p < |data|
      invariant 0 <= p <= |data| && (p > 0 ==> data[p - 1] == NUL && |ptrs| > 0 && ptrs[0].off == 0)
      invariant (p == 0 ==> ptrs == [])
      invariant Indexed(data, ptrs, p) && Total(data, ptrs) == p
      invariant forall j :: 0 <= j < |ptrs| ==> !ptrs[j].used
    {
      StrAtEnds(data, p);
      IndexOne(data, ptrs, p);
      ptrs := ptrs + [StrPtr(p, 0, false)];
      p := p + |StrAt(data, p)| + 1;
    }
  }

  lemma TotalEmpty(data: string)
    ensures Total(data, []) == 0
  {
  }

  lemma IndexOne(data: string, ptrs: seq<StrPtr>, p: nat)
    requires Indexed(data, ptrs, p) && IsStart(data, p) && data[|data| - 1] == NUL
    ensures var q := p + |StrAt(data, p)| + 1;
            Indexed(data, ptrs + [StrPtr(p, 0, false)], q)
            && Total(data, ptrs + [StrPtr(p, 0, false)]) == Total(data, ptrs) + q - p
  {
    hide StrAt;
    StrAtEnds(data, p);
    var q := p + |StrAt(data, p)| + 1;
    var ptrs' := ptrs + [StrPtr(p, 0, false)];
    assert ptrs'[..|ptrs|] == ptrs;
    forall o: nat | o < q && IsStart(data, o) ensures HasEntry(ptrs', o) {
      if o < p {
        assert HasEntry(ptrs, o);
        var j :| 0 <= j < |ptrs| && ptrs[j].off == o;
        assert ptrs'[j].off == o;
      } else if o == p {
        assert ptrs'[|ptrs|].off == o;
      } else {
        assert false;
      }
    }
  }

  /** Marking and renumbering leave the offsets alone. */
  ghost predicate SameOffs(a: seq<StrPtr>, b: seq<StrPtr>) {
    |a| == |b| && forall j :: 0 <= j < |a| ==> a[j].off == b[j].off
  }

  lemma IndexedSameOffs(data: string, a: seq<StrPtr>, b: seq<StrPtr>, upto: nat)
    requires Indexed(data, a, upto) && SameOffs(a, b)
    ensures Indexed(data, b, upto)
  {
  }

  lemma {:induction false} TotalSameOffs(data: string, a: seq<StrPtr>, b: seq<StrPtr>)
    requires SameOffs(a, b)
    ensures Total(data, a) == Total(data, b)
    decreases |a|
  {
    if a != [] {
      TotalSameOffs(data, a[..|a| - 1], b[..|b| - 1]);
    }
  }

  /** The sum over a list does not depend on its order. */
  lemma {:induction false} TotalPermuted(data: string, a: seq<StrPtr>, b: seq<StrPtr>)
    requires multiset(a) == multiset(b)
    ensures Total(data, a) == Total(data, b)
    decreases |a|
  {
    if a == [] {
      assert |multiset(b)| == 0;
    } else {
      var x := a[|a| - 1];
      assert a == a[..|a| - 1] + [x];
      assert x in multiset(b);
      var k :| 0 <= k < |b| && b[k] == x;
      var b' := b[..k] + b[k + 1..];
      assert b == b[..k] + [x] + b[k + 1..];
      assert multiset(b) == multiset(b') + multiset{x};
      assert multiset(a) == multiset(a[..|a| - 1]) + multiset{x};
      assert multiset(b') == multiset(b) - multiset{x};
      TotalPermuted(data, a[..|a| - 1], b');
      TotalWithout(data, b, k);
    }
  }

  lemma {:induction false} TotalWithout(data: string, b: seq<StrPtr>, k: nat)
    requires k < |b|
    ensures Total(data, b) == Total(data, b[..k] + b[k + 1..]) + |Str(data, b[k])| + 1
    decreases |b|
  {
    var n := |b| - 1;
    var b' := b[..k] + b[k + 1..];
    if k == n {
      assert b' == b[..n];
    } else {
      TotalWithout(data, b[..n], k);
      assert b'[..|b'| - 1] == b[..n][..k] + b[..n][k + 1..];
      assert b'[|b'| - 1] == b[n];
    }
  }

  /** `bsearch` over the index, by offset. */
  method Bsearch(ptrs: seq<StrPtr>, off: nat) returns (found: bool, k: nat)
    requires forall i, j :: 0 <= i < j < |ptrs| ==> ptrs[i].off < ptrs[j].off
    ensures found ==> k < |ptrs| && ptrs[k].off == off
    ensures !found ==> !HasEntry(ptrs, off)
  {
    var lo, hi := 0, |ptrs|;
    while lo < hi
      invariant 0 <= lo <= hi <= |ptrs|
      invariant forall j :: 0 <= j < lo ==> ptrs[j].off < off
      invariant forall j :: hi <= j < |ptrs| ==> ptrs[j].off > off
    {
      var mid := (lo + hi) / 2;
      if ptrs[mid].off == off {
        return true, mid;
      } else if off < ptrs[mid].off {
        hi := mid;
      } else {
        lo := mid + 1;
      }
    }
    return false, 0;
  }

  // ----- what the new offsets mean -----

  ghost predicate DistinctOffs(a: seq<StrPtr>) {
    forall i, j :: 0 <= i < j < |a| ==> a[i].off != a[j].off
  }

  lemma DistinctPermuted(a: seq<StrPtr>, b: seq<StrPtr>)
    requires multiset(a) == multiset(b) && DistinctOffs(a)
    ensures DistinctOffs(b)
  {
    forall i, j | 0 <= i < j < |b| ensures b[i].off != b[j].off {
      var p, q := b[i], b[j];
      assert p in multiset(b) && q in multiset(b);
      var u :| 0 <= u < |a| && a[u] == p;
      if p == q {
        TwiceIn(a, b, i, j, u);
      } else {
        assert q in multiset(a);
        var v :| 0 <= v < |a| && a[v] == q;
      }
    }
  }

  lemma TwiceIn(a: seq<StrPtr>, b: seq<StrPtr>, i: nat, j: nat, u: nat)
    requires multiset(a) == multiset(b) && i < j < |b| && b[i] == b[j] && u < |a| && a[u] == b[i]
    ensures exists v :: 0 <= v < |a| && v != u && a[v] == a[u]
  {
    var p := b[i];
    TwiceCounts(b, i, j);
    var rest := a[..u] + a[u + 1..];
    assert multiset(a) == multiset(rest) + multiset{p} by {
      assert a == a[..u] + [p] + a[u + 1..];
    }
    assert p in multiset(rest);
    var w :| 0 <= w < |rest| && rest[w] == p;
    assert a[if w < u then w else w + 1] == p;
  }

  lemma TwiceCounts(b: seq<StrPtr>, i: nat, j: nat)
    requires i < j < |b| && b[i] == b[j]
    ensures multiset(b)[b[i]] >= 2
  {
    var l, r := b[..j], b[j..];
    assert b == l + r;
    assert l[i] == b[i] && r[0] == b[i];
    assert b[i] in multiset(l) && b[i] in multiset(r);
  }

  /** Every used entry points at a copy of its string; two of them share a copy exactly
      when their strings are equal; the empty string is at offset 0. */
  ghost predicate Renames(data: string, data': string, ptrs: seq<StrPtr>) {
    && (forall p :: p in ptrs && p.used ==> p.newOff < |data'| && StrAt(data', p.newOff) == Str(data, p))
    && (forall p, q :: p in ptrs && q in ptrs && p.used && q.used ==>
          (p.newOff == q.newOff <==> Str(data, p) == Str(data, q)))
    && (forall p :: p in ptrs && p.used && Str(data, p) == [] ==> p.newOff == 0)
  }

  lemma EmittedRenames(data: string, s: seq<StrPtr>, r: seq<StrPtr>, out: string)
    requires |s| > 0 && Str(data, s[0]) == [] && EmitOk(data, s, r, out, |s|)
    ensures Renames(data, out, r) && |out| <= Total(data, s)
  {
    hide StrAt, Total;
    assert s[..|s|] == s;
    forall p | p in r && p.used ensures p.newOff < |out| && StrAt(out, p.newOff) == Str(data, p)
                                        && (Str(data, p) == [] ==> p.newOff == 0) {
      var j :| 0 <= j < |r| && r[j] == p;
      assert SameEntry(r[j], s[j]);
    }
    forall p, q | p in r && q in r && p.used && q.used ensures p.newOff == q.newOff <==> Str(data, p) == Str(data, q) {
      var j :| 0 <= j < |r| && r[j] == p;
      var l :| 0 <= l < |r| && r[l] == q;
      assert SameEntry(r[j], s[j]) && SameEntry(r[l], s[l]);
    }
  }

  lemma RenamesPermuted(data: string, data': string, a: seq<StrPtr>, b: seq<StrPtr>)
    requires multiset(a) == multiset(b) && Renames(data, data', a)
    ensures Renames(data, data', b)
  {
    hide StrAt;
    assert forall p :: p in b ==> p in multiset(b);
    assert forall p :: p in multiset(a) ==> p in a;
  }

  lemma EmptyStringFirst(data: string, s: seq<StrPtr>, ptrs: seq<StrPtr>)
    requires multiset(s) == multiset(ptrs) && ByContent(data, s) && |ptrs| > 0 && Str(data, ptrs[0]) == []
    ensures |s| > 0 && Str(data, s[0]) == []
  {
    hide StrAt;
    assert ptrs[0] in multiset(s);
    var k :| 0 <= k < |s| && s[k] == ptrs[0];
    assert k > 0 ==> StrLe(Str(data, s[0]), Str(data, s[k]));
  }

  // ----- renaming descriptors -----

  function RenameMap(ptrs: seq<StrPtr>): map<nat, nat> {
    if ptrs == [] then map[]
    else
      var p := ptrs[|ptrs| - 1];
      var m := RenameMap(ptrs[..|ptrs| - 1]);
      if p.used then m[p.off := p.newOff] else m
  }

  lemma {:induction false} RenameMapHas(ptrs: seq<StrPtr>)
    requires DistinctOffs(ptrs)
    ensures forall j :: 0 <= j < |ptrs| && ptrs[j].used ==>
              ptrs[j].off in RenameMap(ptrs) && RenameMap(ptrs)[ptrs[j].off] == ptrs[j].newOff
    ensures forall o :: o in RenameMap(ptrs) ==> exists j :: 0 <= j < |ptrs| && ptrs[j].used && ptrs[j].off == o
    decreases |ptrs|
  {
    if ptrs != [] {
      var init := ptrs[..|ptrs| - 1];
      RenameMapHas(init);
      forall o | o in RenameMap(ptrs) ensures exists j :: 0 <= j < |ptrs| && ptrs[j].used && ptrs[j].off == o {
        if o in RenameMap(init) {
          var j :| 0 <= j < |init| && init[j].used && init[j].off == o;
          assert ptrs[j] == init[j];
        }
      }
    }
  }

  predicate AllIn(offs: seq<nat>, nu: map<nat, nat>) {
    forall j :: 0 <= j < |offs| ==> offs[j] in nu
  }

  function RenameOffs(offs: seq<nat>, nu: map<nat, nat>): (r: seq<nat>)
    requires AllIn(offs, nu)
    ensures |r| == |offs| && forall j :: 0 <= j < |r| ==> r[j] == nu[offs[j]]
  {
    seq(|offs|, j requires 0 <= j < |offs| => nu[offs[j]])
  }

  function RenameType(t: BtfType, nu: map<nat, nat>): BtfType
    requires AllIn(NameOffs(t), nu)
  {
    var offs := RenameOffs(NameOffs(t), nu);
    t.(nameOff := offs[0], slotNames := offs[1..])
  }

  /** A map of string offsets under which every string reads the same, equal strings get
      equal offsets and different strings different ones, and 0 stays 0. */
  ghost predicate Renaming(data: string, data': string, nu: map<nat, nat>) {
    && 0 in nu && nu[0] == 0
    && (forall o :: o in nu ==> nu[o] < |data'| && StrAt(data', nu[o]) == StrAt(data, o))
    && (forall o, p :: o in nu && p in nu ==> (nu[o] == nu[p] <==> StrAt(data, o) == StrAt(data, p)))
  }

  ghost predicate RenamedGraph(g: seq<BtfType>, g': seq<BtfType>, nu: map<nat, nat>) {
    && |g| == |g'| > 0 && g'[0] == g[0]
    && forall i :: 0 < i < |g| ==> AllIn(NameOffs(g[i]), nu) && g'[i] == RenameType(g[i], nu)
  }

  lemma RenameKeepsLabel(data: string, data': string, nu: map<nat, nat>, t: BtfType)
    requires Renaming(data, data', nu) && AllIn(NameOffs(t), nu)
    ensures LabelOf(data', RenameType(t, nu)) == LabelOf(data, t)
  {
  }

  /** Renamed consistently, the graph keeps its meaning. */
  lemma RenamedGraphWf(g: seq<BtfType>, g': seq<BtfType>, nu: map<nat, nat>)
    requires WfGraph(g) && RenamedGraph(g, g', nu)
    ensures WfGraph(g')
  {
    forall i | 0 <= i < |g'| ensures WfType(g'[i]) && RefsBelow(g'[i], |g'|) {
      assert RefsBelow(g[i], |g|);
    }
  }

  lemma {:induction false} RenamedGraphMeans(data: string, data': string, g: seq<BtfType>, g': seq<BtfType>,
                                             nu: map<nat, nat>, i: nat, k: nat)
    requires WfGraph(g) && WfGraph(g') && RenamedGraph(g, g', nu) && Renaming(data, data', nu) && i < |g|
    ensures Unfold(data', g', i, k) == Unfold(data, g, i, k)
    decreases k
  {
    hide Unfold, StrAt, LabelOf, Renaming, WfType;
    if k == 0 {
      UnfoldZero(data', g', i, data, g, i);
    } else {
      assert g'[i].refs == g[i].refs && RefsBelow(g[i], |g|);
      if i == 0 {
        VoidLabel(data, data', nu);
      } else {
        RenameKeepsLabel(data, data', nu, g[i]);
      }
      forall j | 0 <= j < |g[i].refs|
        ensures Unfold(data', g', g'[i].refs[j], k - 1) == Unfold(data, g, g[i].refs[j], k - 1) {
        RenamedGraphMeans(data, data', g, g', nu, g[i].refs[j], k - 1);
      }
      UnfoldNode(data', g', i, data, g, i, k);
    }
  }

  /** After renaming, equal names have equal offsets everywhere. */
  lemma RenamedNamesApart(data: string, data': string, g: seq<BtfType>, g': seq<BtfType>, nu: map<nat, nat>)
    requires WfGraph(g) && RenamedGraph(g, g', nu) && Renaming(data, data', nu)
    ensures NamesApart(data', g')
  {
    hide StrAt, WfType;
    forall i, o | 0 <= i < |g'| && o in NameOffs(g'[i]) ensures exists p :: p in nu && nu[p] == o {
      if i > 0 {
        var j :| 0 <= j < |NameOffs(g'[i])| && NameOffs(g'[i])[j] == o;
        assert NameOffs(g'[i]) == RenameOffs(NameOffs(g[i]), nu);
        assert NameOffs(g[i])[j] in nu;
      }
    }
  }

  lemma VoidLabel(data: string, data': string, nu: map<nat, nat>)
    requires Renaming(data, data', nu)
    ensures LabelOf(data', VOID) == LabelOf(data, VOID)
  {
  }

  // ----- the pass -----

  ghost predicate UsedAt(ptrs: seq<StrPtr>, o: nat) {
    exists j :: 0 <= j < |ptrs| && ptrs[j].off == o && ptrs[j].used
  }

  ghost predicate Covered(ptrs: seq<StrPtr>, offs: seq<nat>) {
    forall j :: 0 <= j < |offs| ==> offs[j] == 0 || UsedAt(ptrs, offs[j])
  }

  predicate StartsOnly(data: string, offs: seq<nat>) {
    forall j :: 0 <= j < |offs| ==> IsStart(data, offs[j])
  }

  /** Every visited reference is the offset of the start of some string. */
  predicate AllStarts(data: string, types: seq<BtfType>, ext: seq<nat>) {
    StartsOnly(data, ext) && forall i :: 0 < i < |types| ==> StartsOnly(data, NameOffs(types[i]))
  }

  /** Marking only ever turns `used` on. */
  ghost predicate Marked(a: seq<StrPtr>, b: seq<StrPtr>) {
    |a| == |b| && forall j :: 0 <= j < |a| ==> b[j] == a[j] || b[j] == a[j].(used := true)
  }

  lemma CoveredStays(a: seq<StrPtr>, b: seq<StrPtr>, offs: seq<nat>)
    requires Marked(a, b) && Covered(a, offs)
    ensures Covered(b, offs)
  {
  }

  lemma CoveredStarts(data: string, ptrs: seq<StrPtr>, offs: seq<nat>)
    requires |data| > 0 && Indexed(data, ptrs, |data|) && Covered(ptrs, offs)
    ensures StartsOnly(data, offs)
  {
  }

  lemma MarkedKeepsIndex(data: string, a: seq<StrPtr>, b: seq<StrPtr>)
    requires Marked(a, b) && Indexed(data, a, |data|)
    ensures SameOffs(a, b) && Indexed(data, b, |data|)
  {
  }

  lemma MarkedTrans(a: seq<StrPtr>, b: seq<StrPtr>, c: seq<StrPtr>)
    requires Marked(a, b) && Marked(b, c)
    ensures Marked(a, c)
  {
  }

  /** The offsets that the final index gives, as a map. */
  ghost predicate MapOf(ptrs: seq<StrPtr>, nu: map<nat, nat>) {
    && 0 in nu && nu[0] == 0
    && forall j :: 0 <= j < |ptrs| && ptrs[j].used ==> ptrs[j].off in nu && nu[ptrs[j].off] == ptrs[j].newOff
  }

  lemma CoveredIsMapped(ptrs: seq<StrPtr>, nu: map<nat, nat>, offs: seq<nat>)
    requires MapOf(ptrs, nu) && Covered(ptrs, offs)
    ensures AllIn(offs, nu)
  {
  }

  method MarkSeq(data: string, ptrs: seq<StrPtr>, offs: seq<nat>) returns (err: int, r: seq<StrPtr>)
    requires |data| > 0 && Indexed(data, ptrs, |data|)
    ensures Marked(ptrs, r)
    ensures err == 0 ==> Covered(r, offs)
    ensures err == if StartsOnly(data, offs) then 0 else -EINVAL
  {
    hide HasEntry, StartsOnly;
    r := ptrs;
    var i := 0;
    while i < |offs|
      invariant 0 <= i <= |offs| && Marked(ptrs, r) && Covered(r, offs[..i]) && Indexed(data, r, |data|)
    {
      assert offs[..i + 1] == offs[..i] + [offs[i]];
      if offs[i] != 0 {
        var found, k := Bsearch(r, offs[i]);
        if !found {
          NotAStart(data, r, offs, i);
          return -EINVAL, r;
        }
        ghost var r0 := r;
        r := r[k := r[k].(used := true)];
        assert Marked(r0, r);
        CoveredStays(r0, r, offs[..i]);
        MarkedTrans(ptrs, r0, r);
        MarkedKeepsIndex(data, r0, r);
        assert UsedAt(r, offs[i]);
      }
      i := i + 1;
    }
    assert offs[..i] == offs;
    CoveredStarts(data, r, offs);
    err := 0;
  }

  lemma NotAStart(data: string, ptrs: seq<StrPtr>, offs: seq<nat>, i: nat)
    requires Indexed(data, ptrs, |data|) && i < |offs| && !HasEntry(ptrs, offs[i])
    ensures !StartsOnly(data, offs)
  {
  }

  method RemapSeq(ptrs: seq<StrPtr>, offs: seq<nat>, ghost nu: map<nat, nat>) returns (err: int, r: seq<nat>)
    requires forall i, j :: 0 <= i < j < |ptrs| ==> ptrs[i].off < ptrs[j].off
    requires MapOf(ptrs, nu) && Covered(ptrs, offs) && AllIn(offs, nu)
    ensures err == 0 && r == RenameOffs(offs, nu)
  {
    r := [];
    var i := 0;
    while i < |offs|
      invariant 0 <= i <= |offs| && |r| == i && forall j :: 0 <= j < i ==> r[j] == nu[offs[j]]
    {
      if offs[i] == 0 {
        r := r + [0];
      } else {
        assert UsedAt(ptrs, offs[i]);
        var found, k := Bsearch(ptrs, offs[i]);
        if !found {
          return -EINVAL, r;
        }
        r := r + [ptrs[k].newOff];
      }
      i := i + 1;
    }
    err := 0;
  }

  /** The entries after marking: every visited offset is used, and so is the first entry. */
  ghost predicate MarkedAll(data: string, types: seq<BtfType>, ext: seq<nat>, ptrs: seq<StrPtr>) {
    && Indexed(data, ptrs, |data|) && |ptrs| > 0 && ptrs[0].off == 0 && ptrs[0].used
    && Covered(ptrs, ext) && forall i :: 0 < i < |types| ==> Covered(ptrs, NameOffs(types[i]))
  }

  /** Sorting by content, emitting and sorting back by offset renames the used strings. */
  method Renumber(data: string, ptrs: seq<StrPtr>) returns (out: string, r: seq<StrPtr>)
    requires WfSection(data) && Indexed(data, ptrs, |data|) && |ptrs| > 0 && ptrs[0].off == 0
    requires Total(data, ptrs) == |data|
    ensures |out| <= |data| && Renames(data, out, r)
    ensures forall i, j :: 0 <= i < j < |r| ==> r[i].off < r[j].off
    ensures forall p :: p in ptrs ==> exists q :: q in r && SameEntry(q, p)
    ensures forall q :: q in r ==> exists p :: p in ptrs && SameEntry(q, p)
  {
    hide StrAt, Total, Indexed, EmitOk, Renames, ByContent, StrLe;
    var byContent := (p: StrPtr, q: StrPtr) => StrLe(StrAt(data, p.off), StrAt(data, q.off));
    ContentIsPreorder(data, byContent);
    var sorted := Qsort(ptrs, byContent);
    ContentSorted(data, sorted, byContent);
    StringsEnd(data, ptrs, sorted);
    TotalPermuted(data, ptrs, sorted);
    FirstIsEmpty(data, ptrs[0]);
    EmptyStringFirst(data, sorted, ptrs);
    var emitted;
    out, emitted := EmitGroups(data, sorted);
    EmittedRenames(data, sorted, emitted, out);
    var byOffset := (p: StrPtr, q: StrPtr) => p.off <= q.off;
    r := Qsort(emitted, byOffset);
    RenamesPermuted(data, out, emitted, r);
    SortedBack(data, ptrs, sorted, emitted, out, r, byOffset);
  }

  lemma ContentIsPreorder(data: string, le: (StrPtr, StrPtr) -> bool)
    requires forall p, q :: le(p, q) == StrLe(StrAt(data, p.off), StrAt(data, q.off))
    ensures TotalPreorder(le)
  {
    hide StrAt, StrLe;
    forall a: StrPtr, b: StrPtr ensures le(a, b) || le(b, a) {
      StrLeTotal(StrAt(data, a.off), StrAt(data, b.off));
    }
    forall a: StrPtr, b: StrPtr, c: StrPtr | le(a, b) && le(b, c) ensures le(a, c) {
      StrLeTrans(StrAt(data, a.off), StrAt(data, b.off), StrAt(data, c.off));
    }
  }

  lemma ContentSorted(data: string, s: seq<StrPtr>, le: (StrPtr, StrPtr) -> bool)
    requires SortedBy(s, le) && forall p, q :: le(p, q) == StrLe(StrAt(data, p.off), StrAt(data, q.off))
    ensures ByContent(data, s)
  {
  }

  lemma StringsEnd(data: string, ptrs: seq<StrPtr>, s: seq<StrPtr>)
    requires WfSection(data) && Indexed(data, ptrs, |data|) && multiset(s) == multiset(ptrs)
    ensures forall j :: 0 <= j < |s| ==> NUL !in Str(data, s[j])
  {
    hide StrAt;
    forall j | 0 <= j < |s| ensures NUL !in Str(data, s[j]) {
      assert s[j] in multiset(ptrs);
      StrAtEnds(data, s[j].off);
    }
  }

  lemma FirstIsEmpty(data: string, p: StrPtr)
    requires WfSection(data) && p.off == 0
    ensures Str(data, p) == []
  {
  }

  lemma SortedBack(data: string, ptrs: seq<StrPtr>, sorted: seq<StrPtr>, emitted: seq<StrPtr>, out: string,
                   r: seq<StrPtr>, le: (StrPtr, StrPtr) -> bool)
    requires Indexed(data, ptrs, |data|) && multiset(sorted) == multiset(ptrs)
    requires EmitOk(data, sorted, emitted, out, |sorted|)
    requires multiset(r) == multiset(emitted) && SortedBy(r, le) && forall p, q :: le(p, q) == (p.off <= q.off)
    ensures forall i, j :: 0 <= i < j < |r| ==> r[i].off < r[j].off
    ensures forall p :: p in ptrs ==> exists q :: q in r && SameEntry(q, p)
    ensures forall q :: q in r ==> exists p :: p in ptrs && SameEntry(q, p)
  {
    hide StrAt, Total;
    DistinctPermuted(ptrs, sorted);
    assert DistinctOffs(emitted) by {
      assert forall j :: 0 <= j < |sorted| ==> SameEntry(emitted[j], sorted[j]);
    }
    DistinctPermuted(emitted, r);
    forall p | p in ptrs ensures exists q :: q in r && SameEntry(q, p) {
      assert p in multiset(sorted);
      var j :| 0 <= j < |sorted| && sorted[j] == p;
      assert SameEntry(emitted[j], sorted[j]) && emitted[j] in multiset(r);
    }
    forall q | q in r ensures exists p :: p in ptrs && SameEntry(q, p) {
      assert q in multiset(emitted);
      var j :| 0 <= j < |emitted| && emitted[j] == q;
      assert SameEntry(emitted[j], sorted[j]) && sorted[j] in multiset(ptrs);
    }
  }

  lemma CoveredByRenumbered(ptrs: seq<StrPtr>, r: seq<StrPtr>, offs: seq<nat>)
    requires Covered(ptrs, offs) && forall p :: p in ptrs ==> exists q :: q in r && SameEntry(q, p)
    ensures Covered(r, offs)
  {
    forall j | 0 <= j < |offs| ensures offs[j] == 0 || UsedAt(r, offs[j]) {
      if offs[j] != 0 {
        assert UsedAt(ptrs, offs[j]);
        var k :| 0 <= k < |ptrs| && ptrs[k].off == offs[j] && ptrs[k].used;
        assert ptrs[k] in ptrs;
        var q :| q in r && SameEntry(q, ptrs[k]);
        var l :| 0 <= l < |r| && r[l] == q;
        assert r[l].off == offs[j] && r[l].used;
      }
    }
  }

  lemma RenamesAt(data: string, data': string, r: seq<StrPtr>, j: nat, k: nat)
    requires Renames(data, data', r) && j < |r| && k < |r| && r[j].used && r[k].used
    ensures r[j].newOff < |data'| && StrAt(data', r[j].newOff) == StrAt(data, r[j].off)
    ensures r[j].newOff == r[k].newOff <==> StrAt(data, r[j].off) == StrAt(data, r[k].off)
    ensures StrAt(data, r[j].off) == [] ==> r[j].newOff == 0
  {
  }

  lemma ZeroIsUsed(ptrs: seq<StrPtr>, r: seq<StrPtr>) returns (l: nat)
    requires |ptrs| > 0 && ptrs[0].off == 0 && ptrs[0].used
    requires forall p :: p in ptrs ==> exists q :: q in r && SameEntry(q, p)
    ensures l < |r| && r[l].off == 0 && r[l].used
  {
    assert ptrs[0] in ptrs;
    var q :| q in r && SameEntry(q, ptrs[0]);
    l :| 0 <= l < |r| && r[l] == q;
  }

  /** The final index, read as a map of offsets. */
  lemma RenumberedMap(data: string, data': string, ptrs: seq<StrPtr>, r: seq<StrPtr>)
    requires WfSection(data) && Renames(data, data', r) && |ptrs| > 0 && ptrs[0].off == 0 && ptrs[0].used
    requires forall i, j :: 0 <= i < j < |r| ==> r[i].off < r[j].off
    requires forall p :: p in ptrs ==> exists q :: q in r && SameEntry(q, p)
    ensures MapOf(r, RenameMap(r)) && Renaming(data, data', RenameMap(r))
  {
    hide StrAt, RenameMap, Renames;
    RenameMapHas(r);
    var nu := RenameMap(r);
    var l := ZeroIsUsed(ptrs, r);
    FirstIsEmpty(data, r[l]);
    RenamesAt(data, data', r, l, l);
    forall o, p | o in nu && p in nu
      ensures nu[o] < |data'| && StrAt(data', nu[o]) == StrAt(data, o)
      ensures nu[o] == nu[p] <==> StrAt(data, o) == StrAt(data, p)
    {
      var j :| 0 <= j < |r| && r[j].used && r[j].off == o;
      var k :| 0 <= k < |r| && r[k].used && r[k].off == p;
      RenamesAt(data, data', r, j, k);
    }
  }

  /** The parts of a BTF object that hold strings or references to them.  `ext` lists the
      string references of the line info, in the order in which they are visited. */
  class StringTable {
    var data: string
    var types: seq<BtfType>
    var ext: seq<nat>

    constructor (data: string, types: seq<BtfType>, ext: seq<nat>)
      ensures this.data == data && this.types == types && this.ext == ext
    {
      this.data, this.types, this.ext := data, types, ext;
    }

    method MarkAll(index: seq<StrPtr>) returns (err: int, ptrs: seq<StrPtr>)
      requires WfSection(data) && Indexed(data, index, |data|) && |index| > 0 && index[0].off == 0 && index[0].used
      ensures err == if AllStarts(data, types, ext) then 0 else -EINVAL
      ensures err == 0 ==> MarkedAll(data, types, ext, ptrs) && SameOffs(index, ptrs)
    {
      hide Indexed, Covered, Marked, StartsOnly, SameOffs;
      ptrs := index;
      MarkedRefl(data, index);
      var i := 1;
      while i < |types|
        invariant 1 <= i && Marked(index, ptrs) && Indexed(data, ptrs, |data|)
        invariant forall k :: 0 < k < i && k < |types| ==>
                    Covered(ptrs, NameOffs(types[k])) && StartsOnly(data, NameOffs(types[k]))
      {
        ghost var p0 := ptrs;
        err, ptrs := MarkSeq(data, ptrs, NameOffs(types[i]));
        if err != 0 {
          return;
        }
        MarkedTrans(index, p0, ptrs);
        MarkedKeepsIndex(data, p0, ptrs);
        forall k | 0 < k < i ensures Covered(ptrs, NameOffs(types[k])) {
          CoveredStays(p0, ptrs, NameOffs(types[k]));
        }
        i := i + 1;
      }
      ghost var p0 := ptrs;
      err, ptrs := MarkSeq(data, ptrs, ext);
      MarkedTrans(index, p0, ptrs);
      MarkedKeepsIndex(data, index, ptrs);
      FirstStaysUsed(index, ptrs);
      forall k | 0 < k < |types| ensures Covered(ptrs, NameOffs(types[k])) {
        CoveredStays(p0, ptrs, NameOffs(types[k]));
      }
    }

    method RemapAll(ptrs: seq<StrPtr>, ghost nu: map<nat, nat>) returns (err: int)
      requires |types| > 0 && MapOf(ptrs, nu) && forall i, j :: 0 <= i < j < |ptrs| ==> ptrs[i].off < ptrs[j].off
      requires Covered(ptrs, ext) && AllIn(ext, nu)
      requires forall i :: 0 < i < |types| ==> Covered(ptrs, NameOffs(types[i])) && AllIn(NameOffs(types[i]), nu)
      modifies this`types, this`ext
      ensures err == 0 && RenamedGraph(old(types), types, nu) && ext == RenameOffs(old(ext), nu)
    {
      hide Covered, AllIn, MapOf;
      var i := 1;
      while i < |types|
        invariant 1 <= i <= |types| == |old(types)| && ext == old(ext)
        invariant forall k :: 0 < k < |types| ==>
                    types[k] == if k < i then RenameType(old(types)[k], nu) else old(types)[k]
        invariant types[0] == old(types)[0]
      {
        var offs;
        err, offs := RemapSeq(ptrs, NameOffs(types[i]), nu);
        if err != 0 {
          return;
        }
        types := types[i := types[i].(nameOff := offs[0], slotNames := offs[1..])];
        i := i + 1;
      }
      var offs;
      err, offs := RemapSeq(ptrs, ext, nu);
      ext := offs;
    }

    /** Deduplicates the strings.  `nu` maps every string that is referenced to its new offset. */
    method DedupStrings() returns (err: int, ghost nu: map<nat, nat>)
      requires WfSection(data) && WfGraph(types)
      modifies this
      ensures err == if AllStarts(old(data), old(types), old(ext)) then 0 else -EINVAL
      ensures err != 0 ==> data == old(data) && types == old(types) && ext == old(ext)
      ensures err == 0 ==> Renaming(old(data), data, nu) && |data| <= |old(data)|
      ensures err == 0 ==> RenamedGraph(old(types), types, nu) && AllIn(old(ext), nu) && ext == RenameOffs(old(ext), nu)
      ensures err == 0 ==> WfGraph(types) && NamesApart(data, types)
      ensures err == 0 ==> forall i: nat, k: nat :: i < |types| ==>
                             Unfold(data, types, i, k) == Unfold(old(data), old(types), i, k)
    {
      hide Indexed, Covered, StartsOnly, Renames, Renaming, MapOf, RenameMap, AllIn, RenamedGraph, AllStarts, StrAt,
           WfGraph, Unfold, Total, NamesApart;
      nu := map[];
      var ptrs := BuildIndex(data);
      ghost var index0 := ptrs;
      ptrs := ptrs[0 := ptrs[0].(used := true)];
      FirstMarked(data, index0, ptrs);
      ghost var index := ptrs;
      err, ptrs := MarkAll(ptrs);
      if err != 0 {
        return;
      }
      TotalSameOffs(data, index, ptrs);
      var out, r := Renumber(data, ptrs);
      nu := RenameMap(r);
      RenumberedMap(data, out, ptrs, r);
      CoveredByRenumbered(ptrs, r, ext);
      CoveredIsMapped(r, nu, ext);
      forall i | 0 < i < |types| ensures Covered(r, NameOffs(types[i])) && AllIn(NameOffs(types[i]), nu) {
        CoveredByRenumbered(ptrs, r, NameOffs(types[i]));
        CoveredIsMapped(r, nu, NameOffs(types[i]));
      }
      NotEmpty(types);
      data := out;
      err := RemapAll(r, nu);
      RenamedGraphWf(old(types), types, nu);
      RenamedSize(old(types), types, nu);
      RenamedNamesApart(old(data), data, old(types), types, nu);
      forall i: nat, k: nat | i < |types| ensures Unfold(data, types, i, k) == Unfold(old(data), old(types), i, k) {
        RenamedGraphMeans(old(data), data, old(types), types, nu, i, k);
      }
    }
  }

  lemma NotEmpty(g: seq<BtfType>)
    requires WfGraph(g)
    ensures |g| > 0
  {
  }

  lemma RenamedSize(g: seq<BtfType>, g': seq<BtfType>, nu: map<nat, nat>)
    requires RenamedGraph(g, g', nu)
    ensures |g| == |g'|
  {
  }

  lemma FirstMarked(data: string, a: seq<StrPtr>, b: seq<StrPtr>)
    requires |a| > 0 && b == a[0 := a[0].(used := true)] && Indexed(data, a, |data|)
    ensures Indexed(data, b, |data|) && Total(data, b) == Total(data, a)
  {
    assert SameOffs(a, b);
    IndexedSameOffs(data, a, b, |data|);
    TotalSameOffs(data, a, b);
  }

  lemma MarkedRefl(data: string, a: seq<StrPtr>)
    ensures Marked(a, a)
  {
  }

  lemma FirstStaysUsed(a: seq<StrPtr>, b: seq<StrPtr>)
    requires Marked(a, b) && |a| > 0 && a[0].used
    ensures |b| > 0 && b[0].used && b[0].off == a[0].off
  {
  }
}
