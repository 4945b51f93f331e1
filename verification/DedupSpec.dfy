/** What the passes of `btf__dedup` keep, as predicates and lemmas on values. */
module DedupSpec {
  import opened BtfTypes
  import opened Bits
  import opened CanonMap
  import opened HypotMap
  import opened EquivCheck
  import opened EquivMeaning

  /** The bucket of each type: its hash masked by the table size minus one. */
  function Buckets(size: nat): BtfType -> nat
    requires size > 0
  {
    t => if WfType(t) then And(SignatureHash(t), size - 1) else 0
  }

  /** All that exactness needs of the hash: every type has one bucket of the table. */
  ghost predicate IsBucketing(bucket: BtfType -> nat, size: nat) {
    forall t :: bucket(t) < size
  }

  /** Candidates in the table are mapped, and the struct and union candidates are exactly the
      canonical ones, each in its bucket. */
  ghost predicate TableOk(g: seq<BtfType>, m: seq<nat>, table: seq<seq<nat>>) {
    && |g| == |m| && |table| > 0
    && (forall b, x {:trigger x in table[b]} :: 0 <= b < |table| && x in table[b] ==>
          && x < |g| && Mapped(m, x)
          && (IsComposite(g[x].info.kind) ==> m[x] == x))
    && (forall i :: 0 <= i < |g| && IsComposite(g[i].info.kind) && m[i] == i ==> InBucket(g, table, i))
  }

  ghost predicate InBucket(g: seq<BtfType>, table: seq<seq<nat>>, i: nat)
    requires i < |g| && |table| > 0
  {
    var b := Buckets(|table|)(g[i]);
    b < |table| && i in table[b]
  }

  /** What passes 2 and 3 keep of the canonical map. */
  ghost predicate CanonOk(strs: string, exact: bool, g: seq<BtfType>, m: seq<nat>, root: seq<nat>, dist: seq<nat>) {
    && WfGraph(g) && |g| <= MAX_ID + 1
    && Forest(m, root, dist) && LinksTyped(g, m, root)
    && (exact ==> Sound(strs, g, root) && EndsMapped(m, root))
    && m[0] == 0
    && (forall i :: 0 <= i < |m| ==> Mapped(m, i) || m[i] == UNPROCESSED)
    && (forall i :: 0 <= i < |m| && IsRef(g[i].info.kind) ==> m[i] == UNPROCESSED)
  }

  /** What is mapped resolves to something canonical. */
  ghost predicate EndsMapped(m: seq<nat>, root: seq<nat>) {
    |m| == |root| && InRange(root, |m|) && forall i :: 0 <= i < |m| && Mapped(m, i) ==> m[root[i]] == root[i]
  }

  lemma InitiallyOk(strs: string, exact: bool, g: seq<BtfType>, m: seq<nat>, root: seq<nat>, dist: seq<nat>)
    requires WfGraph(g) && |g| <= MAX_ID + 1
    requires |m| == |root| == |dist| == |g| && m[0] == 0 && forall i :: 0 < i < |m| ==> m[i] == UNPROCESSED
    requires forall i :: 0 <= i < |m| ==> root[i] == i
    ensures CanonOk(strs, exact, g, m, root, dist)
  {
  }

  lemma CanonLink(strs: string, exact: bool, g: seq<BtfType>, m: seq<nat>, root: seq<nat>, dist: seq<nat>, r: nat,
                  c: nat)
    requires CanonOk(strs, exact, g, m, root, dist)
    requires r < |m| && c < |m| && r != c && r != 0
    requires !IsLink(m, r) && !IsLink(m, c)
    requires LinkAllowed(g[r], g[c]) && !IsRef(g[r].info.kind)
    requires exact ==> g[r].info.kind == g[c].info.kind && Same(strs, g, r, c) && !Mapped(m, r) && m[c] == c
    ensures CanonOk(strs, exact, g, m[r := c], Reroot(root, r, c), Redist(dist, root, r, c))
  {
    LinkEnds(m, root, dist, r, c);
    LinkEndsTyped(g, m, root, r, c);
    if exact {
      LinkEndsSound(strs, g, root, r, c);
      assert ChainEnds(m, root, dist, r);
      LinkEndsMapped(m, root, r, c);
    }
  }

  lemma LinkEndsMapped(m: seq<nat>, root: seq<nat>, r: nat, c: nat)
    requires EndsMapped(m, root) && r < |m| && c < |m| && c <= MAX_ID && !Mapped(m, r) && m[c] == c && root[r] == r
    ensures EndsMapped(m[r := c], Reroot(root, r, c))
  {
    var m', root' := m[r := c], Reroot(root, r, c);
    forall i | 0 <= i < |m'| && Mapped(m', i) ensures m'[root'[i]] == root'[i] {
    }
  }

  lemma CanonSelf(strs: string, exact: bool, g: seq<BtfType>, m: seq<nat>, root: seq<nat>, dist: seq<nat>, r: nat)
    requires CanonOk(strs, exact, g, m, root, dist)
    requires r < |m| && !IsLink(m, r) && !IsRef(g[r].info.kind) && r != 0
    ensures CanonOk(strs, exact, g, m[r := r], root, dist)
  {
    hide Sound, WfGraph, EndsMapped, ChainTyped;
    MarkEnd(m, root, dist, r, r);
    MarkTyped(g, m, root, r, r);
    assert ChainEnds(m, root, dist, r);
    if exact {
      SelfEndsMapped(m, root, r);
    }
  }

  lemma SelfEndsMapped(m: seq<nat>, root: seq<nat>, r: nat)
    requires EndsMapped(m, root) && r < |m| && root[r] == r
    ensures EndsMapped(m[r := r], root)
  {
  }

  /** After pass 2 has done the ids up to `done`: each primitive type is mapped to a
      canonical one equal to it, canonical ones differ, and each can be found. */
  ghost predicate PrimExact(g: seq<BtfType>, m: seq<nat>, table: seq<seq<nat>>, bucket: BtfType -> nat, done: nat) {
    && |g| == |m| && IsBucketing(bucket, |table|)
    && (forall i :: 0 < i < |g| ==> PrimMapped(g, m, i, done))
    && (forall i :: 0 < i < |g| && m[i] == i ==> i in table[bucket(g[i])])
    && (forall i, j :: 0 < i < |g| && 0 < j < |g| && m[i] == i && m[j] == j && g[i] == g[j] ==> i == j)
    && (forall b, x {:trigger x in table[b]} :: 0 <= b < |table| && x in table[b] ==> 0 < x < |g| && m[x] == x)
  }

  ghost predicate PrimMapped(g: seq<BtfType>, m: seq<nat>, i: nat, done: int)
    requires |g| == |m| && i < |g|
  {
    if i <= done && IsPrim(g[i].info.kind) then 0 < m[i] < |g| && m[m[i]] == m[i] && g[m[i]] == g[i]
    else m[i] == UNPROCESSED
  }

  predicate AllKnown(g: seq<BtfType>) {
    forall i :: 0 < i < |g| ==> KnownKind(g[i].info.kind)
  }

  /** Canonicalisation by hash is exact, whatever the table size and the collisions. */
  lemma PrimExactIff(g: seq<BtfType>, m: seq<nat>, table: seq<seq<nat>>, bucket: BtfType -> nat, i: nat, j: nat)
    requires |g| > 0 && PrimExact(g, m, table, bucket, |g| - 1)
    requires 0 < i < |g| && 0 < j < |g| && IsPrim(g[i].info.kind) && IsPrim(g[j].info.kind)
    ensures m[i] == m[j] <==> g[i] == g[j]
  {
    assert PrimMapped(g, m, i, |g| - 1) && PrimMapped(g, m, j, |g| - 1);
  }

  function TableAdd(table: seq<seq<nat>>, b: nat, id: nat): (t: seq<seq<nat>>)
    requires b < |table|
    ensures |t| == |table|
    ensures forall c, x {:trigger x in t[c]} :: 0 <= c < |t| ==> (x in t[c] <==> x in table[c] || (c == b && x == id))
  {
    table[b := [id] + table[b]]
  }

  lemma TableKept(g: seq<BtfType>, m: seq<nat>, table: seq<seq<nat>>, r: nat, v: nat)
    requires TableOk(g, m, table) && r < |m| && v <= MAX_ID
    requires IsComposite(g[r].info.kind) ==> !Mapped(m, r) && v != r
    ensures TableOk(g, m[r := v], table)
  {
    hide Buckets, InBucket;
  }

  lemma TableGrown(g: seq<BtfType>, m: seq<nat>, table: seq<seq<nat>>, b: nat, id: nat)
    requires TableOk(g, m, table) && b < |table| && id < |m| && m[id] == id <= MAX_ID
    ensures TableOk(g, m, TableAdd(table, b, id))
  {
    hide Buckets;
    var t := TableAdd(table, b, id);
    forall i | 0 <= i < |g| && IsComposite(g[i].info.kind) && m[i] == i ensures InBucket(g, t, i) {
      assert InBucket(g, table, i);
    }
  }

  /** A struct or union that becomes canonical goes into its bucket. */
  lemma TableSelf(g: seq<BtfType>, m: seq<nat>, table: seq<seq<nat>>, id: nat)
    requires TableOk(g, m, table) && id < |m| && id <= MAX_ID && !Mapped(m, id)
    ensures var b := Buckets(|table|)(g[id]);
            b < |table| && TableOk(g, m[id := id], TableAdd(table, b, id))
  {
    hide Buckets;
    var b, m' := Buckets(|table|)(g[id]), m[id := id];
    BucketInRange(|table|, g[id]);
    var t := TableAdd(table, b, id);
    forall i | 0 <= i < |g| && IsComposite(g[i].info.kind) && m'[i] == i ensures InBucket(g, t, i) {
      assert i != id ==> InBucket(g, table, i);
    }
  }

  lemma CoreSizes(strs: string, exact: bool, g: seq<BtfType>, m: seq<nat>, root: seq<nat>, dist: seq<nat>,
                  table: seq<seq<nat>>)
    requires CanonOk(strs, exact, g, m, root, dist) && TableOk(g, m, table)
    ensures 0 < |g| <= MAX_ID + 1 && |g| == |m| == |root| == |dist| && |table| > 0
    ensures g[0] == VOID && Forest(m, root, dist) && InRange(root, |g|)
    ensures WfGraph(g) && forall i :: 0 <= i < |g| ==> WfType(g[i])
  {
  }

  lemma TableStarts(g: seq<BtfType>, m: seq<nat>, table: seq<seq<nat>>)
    requires WfGraph(g) && |g| == |m| && |table| > 0 && forall b :: 0 <= b < |table| ==> table[b] == []
    requires forall i :: 0 < i < |m| ==> m[i] == UNPROCESSED
    requires |g| <= MAX_ID + 1
    ensures TableOk(g, m, table)
  {
    hide Buckets, InBucket, WfType;
    assert g[0] == VOID;
  }

  lemma CoreTyped(strs: string, exact: bool, g: seq<BtfType>, m: seq<nat>, root: seq<nat>, dist: seq<nat>)
    requires CanonOk(strs, exact, g, m, root, dist)
    ensures Forest(m, root, dist) && LinksTyped(g, m, root)
  {
  }

  lemma CanonIsSetting(strs: string, g: seq<BtfType>, m: seq<nat>, root: seq<nat>, dist: seq<nat>)
    requires CanonOk(strs, true, g, m, root, dist)
    ensures Setting(strs, g, root)
  {
  }

  lemma PrimReady(g: seq<BtfType>, m: seq<nat>, table: seq<seq<nat>>, bucket: BtfType -> nat, id: nat)
    requires 0 < id < |g| <= MAX_ID + 1 && PrimExact(g, m, table, bucket, id - 1)
    ensures |m| == |g| && m[id] == UNPROCESSED && bucket(g[id]) < |table|
    ensures forall x :: x in table[bucket(g[id])] ==> 0 < x < |g| && m[x] == x && x != id
  {
    assert PrimMapped(g, m, id, id - 1);
  }

  lemma PrimSkipped(g: seq<BtfType>, m: seq<nat>, table: seq<seq<nat>>, bucket: BtfType -> nat, id: nat)
    requires 0 < id < |g| && !IsPrim(g[id].info.kind) && PrimExact(g, m, table, bucket, id - 1)
    ensures PrimExact(g, m, table, bucket, id)
  {
    forall i | 0 < i < |g| ensures PrimMapped(g, m, i, id) {
      assert PrimMapped(g, m, i, id - 1);
    }
  }

  lemma PrimLinked(g: seq<BtfType>, m: seq<nat>, table: seq<seq<nat>>, bucket: BtfType -> nat, id: nat, cand: nat)
    requires 0 < id < |g| && IsPrim(g[id].info.kind) && PrimExact(g, m, table, bucket, id - 1)
    requires cand in table[bucket(g[id])] && g[cand] == g[id] && |g| <= MAX_ID + 1
    ensures PrimExact(g, m[id := cand], table, bucket, id)
  {
    assert PrimMapped(g, m, id, id - 1);
    var m' := m[id := cand];
    forall i | 0 < i < |g| ensures PrimMapped(g, m', i, id) {
      assert PrimMapped(g, m, i, id - 1);
    }
  }

  lemma PrimAdded(g: seq<BtfType>, m: seq<nat>, table: seq<seq<nat>>, bucket: BtfType -> nat, id: nat)
    requires 0 < id < |g| && IsPrim(g[id].info.kind) && PrimExact(g, m, table, bucket, id - 1)
    requires |g| <= MAX_ID + 1
    requires forall x :: x in table[bucket(g[id])] ==> g[x] != g[id]
    ensures PrimExact(g, m[id := id], TableAdd(table, bucket(g[id]), id), bucket, id)
  {
    assert PrimMapped(g, m, id, id - 1);
    var m' := m[id := id];
    forall i | 0 < i < |g| ensures PrimMapped(g, m', i, id) {
      assert PrimMapped(g, m, i, id - 1);
    }
  }

  lemma GraphBasics(g: seq<BtfType>)
    requires WfGraph(g)
    ensures |g| > 0 && forall i :: 0 <= i < |g| ==> WfType(g[i])
    ensures forall i, j :: 0 <= i < |g| && 0 <= j < |g[i].refs| ==> g[i].refs[j] < |g|
  {
  }

  lemma NothingNew(noFwds: bool, g: seq<BtfType>, root: seq<nat>, h: seq<nat>)
    requires WfGraph(g) && |g| == |root| == |h| && InRange(root, |g|)
    ensures NewPairsClosed(noFwds, g, root, h, h, -1) && Extends(h, h)
  {
  }

  lemma RecordedIsListed(h: seq<nat>, l: seq<nat>, c: nat)
    requires ListsRecorded(h, l) && c < |h| && Recorded(h, c)
    ensures c in l
  {
  }

  lemma BadKindIsUnknown(g: seq<BtfType>, m: seq<nat>, root: seq<nat>, dist: seq<nat>, cand: nat, canonId: nat)
    requires |g| == |m| && Forest(m, root, dist) && cand < |g| && canonId < |g|
    requires root[cand] != root[canonId]
    requires var c := ResolveFwd(g, root, canonId);
             g[cand].info == g[c].info && !KnownKind(g[c].info.kind)
    ensures !AllKnown(g)
  {
    assert ChainEnds(m, root, dist, canonId) && ChainEnds(m, root, dist, root[canonId]);
    var c := ResolveFwd(g, root, canonId);
    assert cand != c;
    assert !KnownKind(g[cand].info.kind);
  }

  lemma AgreeClosesPair(noFwds: bool, g: seq<BtfType>, root: seq<nat>, h0: seq<nat>, h: seq<nat>, c: nat)
    requires WfGraph(g) && |g| == |root| == |h| == |h0| && c < |h| && InRange(root, |g|) && h[c] < |g|
    requires h == h0[c := h[c]]
    requires g[h[c]].nameOff == g[c].nameOff && ((!noFwds && FwdPair(g[h[c]], g[c])) || g[h[c]] == g[c])
    ensures NewPairsClosed(noFwds, g, root, h0, h, -1)
  {
  }

  /** The first `n` slots that the check visits hold related ids. */
  ghost predicate SlotsRelated(g: seq<BtfType>, root: seq<nat>, h: seq<nat>, a: nat, c: nat, n: nat)
    requires WfGraph(g) && |g| == |root| == |h| && a < |g| && c < |g| && InRange(root, |g|)
    requires SameShape(g[a], g[c]) && n <= |g[c].refs|
  {
    forall s :: 0 <= s < n ==> SlotRelated(g, root, h, a, c, s)
  }

  ghost predicate SlotRelated(g: seq<BtfType>, root: seq<nat>, h: seq<nat>, a: nat, c: nat, s: nat)
    requires WfGraph(g) && |g| == |root| == |h| && a < |g| && c < |g| && InRange(root, |g|)
    requires SameShape(g[a], g[c]) && s < |g[c].refs|
  {
    Related(g, root, h, g[a].refs[VisitSlot(g[c], s)], g[c].refs[VisitSlot(g[c], s)])
  }

  lemma SlotIds(g: seq<BtfType>, a: nat, c: nat, j: nat)
    requires WfGraph(g) && a < |g| && c < |g| && SameShape(g[a], g[c]) && j < |g[c].refs|
    ensures WfType(g[c])
    ensures var s := VisitSlot(g[c], j);
            s < |g[a].refs| == |g[c].refs| && g[a].refs[s] < |g| && g[c].refs[s] < |g|
  {
  }

  lemma NoSlotYet(g: seq<BtfType>, root: seq<nat>, h: seq<nat>, a: nat, c: nat)
    requires WfGraph(g) && |g| == |root| == |h| && a < |g| && c < |g| && InRange(root, |g|)
    requires SameShape(g[a], g[c])
    ensures SlotsRelated(g, root, h, a, c, 0)
  {
  }

  lemma OneMoreSlot(g: seq<BtfType>, root: seq<nat>, h: seq<nat>, h': seq<nat>, a: nat, c: nat, n: nat)
    requires WfGraph(g) && |g| == |root| == |h| && |g| <= MAX_ID + 1 && a < |g| && c < |g| && InRange(root, |g|)
    requires SameShape(g[a], g[c]) && n < |g[c].refs|
    requires Extends(h, h') && SlotsRelated(g, root, h, a, c, n) && SlotRelated(g, root, h', a, c, n)
    ensures SlotsRelated(g, root, h', a, c, n + 1)
  {
    forall s | 0 <= s < n + 1 ensures SlotRelated(g, root, h', a, c, s) {
      assert s < n ==> SlotRelated(g, root, h, a, c, s);
    }
  }

  lemma OnlyOpenIsNew(noFwds: bool, g: seq<BtfType>, root: seq<nat>, h0: seq<nat>, h: seq<nat>, c: nat)
    requires WfGraph(g) && |g| == |root| == |h| == |h0| && c < |h| && InRange(root, |g|)
    requires h == h0[c := h[c]]
    ensures NewPairsClosed(noFwds, g, root, h0, h, c)
  {
  }

  lemma CloseOpenPair(noFwds: bool, g: seq<BtfType>, root: seq<nat>, h0: seq<nat>, h: seq<nat>, c: nat)
    requires WfGraph(g) && |g| == |root| == |h| == |h0| && c < |h| && InRange(root, |g|) && h[c] < |g|
    requires SameShape(g[h[c]], g[c]) && !IsPrim(g[c].info.kind)
    requires SlotsRelated(g, root, h, h[c], c, |g[c].refs|)
    requires NewPairsClosed(noFwds, g, root, h0, h, c)
    ensures NewPairsClosed(noFwds, g, root, h0, h, -1)
  {
    var a, b := g[h[c]], g[c];
    forall j | 0 <= j < |b.refs| ensures Related(g, root, h, a.refs[j], b.refs[j]) {
      assert VisitSlot(b, VisitSlot(b, j)) == j;
      assert SlotRelated(g, root, h, h[c], c, VisitSlot(b, j));
    }
    assert a.nameOff == Shape(a).nameOff == Shape(b).nameOff == b.nameOff;
    assert PairClosed(noFwds, g, root, h, c);
  }

  /** `x` may stand for the struct or union `id`: they look alike, and a hypothetical map
      with closed pairs, one candidate per canonical-side id, relates them. */
  ghost predicate Equivalent(noFwds: bool, g: seq<BtfType>, root: seq<nat>, id: nat, x: nat)
    requires WfGraph(g) && |g| == |root| && InRange(root, |g|) && id < |g| && IsComposite(g[id].info.kind)
  {
    x < |g| && ShallowEqualStruct(g[id], g[x]) && !Distinguished(noFwds, g, root, id, x)
  }

  lemma AlikeIsComposite(t: BtfType, u: BtfType)
    requires WfType(t) && WfType(u) && IsComposite(t.info.kind)
    ensures ShallowEqualStruct(t, u) ==> IsComposite(u.info.kind)
  {
  }

  /** When no FWD is resolved, that is: they mean the same, and the walk meets no
      canonical-side id opposite two candidates. */
  lemma EquivalentMeans(strs: string, noFwds: bool, g: seq<BtfType>, root: seq<nat>, id: nat, x: nat)
    requires Setting(strs, g, root) && NamesApart(strs, g) && (noFwds || NoFwd(g))
    requires id < |g| && x < |g| && IsComposite(g[id].info.kind)
    ensures Equivalent(noFwds, g, root, id, x) <==>
            Same(strs, g, id, x) && !Clash(g, root, id, x) && !OddFwds(g, root, id, x)
  {
    hide WfGraph, Sound, Same, NamesApart, NoFwd, Distinguished, Clash, OddFwds, ShallowEqualStruct;
    CheckDecidesMeaning(strs, noFwds, g, root, id, x);
    if Same(strs, g, id, x) {
      SameIsShape(strs, g, id, x);
      ShapeIsAlike(g, id, x);
    }
  }

  lemma ShapeIsAlike(g: seq<BtfType>, id: nat, x: nat)
    requires WfGraph(g) && id < |g| && x < |g| && IsComposite(g[id].info.kind)
    requires SameShape(g[id], g[x]) && g[id].nameOff == g[x].nameOff && g[id].info == g[x].info
    ensures ShallowEqualStruct(g[id], g[x])
  {
    assert Shape(g[id]) == Shape(g[x]);
  }

  /** Look-alikes are in one bucket, whatever they refer to. */
  lemma AlikeShareBucket(size: nat, t: BtfType, u: BtfType)
    requires size > 0 && WfType(t) && WfType(u) && IsComposite(t.info.kind) && ShallowEqualStruct(t, u)
    ensures Buckets(size)(t) == Buckets(size)(u)
  {
    assert t.slotNames == u.slotNames && t.slotVals == u.slotVals;
  }

  /** The state of the canonical map and the table when the turn of a struct or union comes. */
  datatype Turn = Turn(m: seq<nat>, root: seq<nat>, dist: seq<nat>, table: seq<seq<nat>>)

  ghost predicate TurnOk(strs: string, exact: bool, g: seq<BtfType>, t: Turn) {
    CanonOk(strs, exact, g, t.m, t.root, t.dist) && TableOk(g, t.m, t.table)
  }

  /** No type becomes canonical, and where no FWD is resolved what is mapped keeps its link. */
  ghost predicate LinksOnly(exact: bool, m: seq<nat>, m': seq<nat>) {
    && |m| == |m'|
    && (forall i :: 0 <= i < |m| && m'[i] == i ==> m[i] == i)
    && (exact ==> forall i :: 0 <= i < |m| && Mapped(m, i) ==> m'[i] == m[i])
  }

  lemma LinksRefl(exact: bool, m: seq<nat>)
    ensures LinksOnly(exact, m, m)
  {
  }

  lemma LinksStep(exact: bool, m: seq<nat>, r: nat, c: nat)
    requires r < |m| && r != c && (exact ==> !Mapped(m, r))
    ensures LinksOnly(exact, m, m[r := c])
  {
  }

  lemma LinksTrans(exact: bool, m0: seq<nat>, m1: seq<nat>, m2: seq<nat>)
    requires LinksOnly(exact, m0, m1) && LinksOnly(exact, m1, m2)
    ensures LinksOnly(exact, m0, m2)
  {
  }

  /** The map after a pair has been merged whose chains end at `t` and `c`: a FWD is linked to
      what it stands opposite, and an unmapped struct or union to a mapped one. */
  function Merged(g: seq<BtfType>, m: seq<nat>, t: nat, c: nat): (r: seq<nat>)
    requires |g| == |m| && t < |g| && c < |g|
    ensures |r| == |m|
  {
    if g[t].info.kind != FWD && g[c].info.kind == FWD then m[c := t]
    else if g[t].info.kind == FWD && g[c].info.kind != FWD then m[t := c]
    else if IsComposite(g[t].info.kind) && g[c].info.kind != FWD && Mapped(m, c) && !Mapped(m, t) then m[t := c]
    else m
  }

  /** And where chains end then. */
  ghost function MergedRoot(g: seq<BtfType>, m: seq<nat>, root: seq<nat>, t: nat, c: nat): (r: seq<nat>)
    requires |g| == |m| == |root| && InRange(root, |g|) && t < |g| && c < |g|
    ensures |r| == |g| && InRange(r, |g|)
  {
    if g[t].info.kind != FWD && g[c].info.kind == FWD then Reroot(root, c, t)
    else if Merged(g, m, t, c) != m then Reroot(root, t, c)
    else root
  }

  /** The map and the chain ends after the pairs of `l` have been merged, in that order. */
  ghost function MergeAll(g: seq<BtfType>, m: seq<nat>, root: seq<nat>, h: seq<nat>,
                          l: seq<nat>): (r: (seq<nat>, seq<nat>))
    requires |g| == |m| == |root| == |h| && InRange(root, |g|)
    requires forall i :: 0 <= i < |l| ==> l[i] < |g| && h[l[i]] < |g|
    ensures |r.0| == |r.1| == |g| && InRange(r.1, |g|)
    decreases |l|
  {
    if l == [] then (m, root)
    else
      var n := |l| - 1;
      var (m1, root1) := MergeAll(g, m, root, h, l[..n]);
      var (t, c) := (root1[h[l[n]]], root1[l[n]]);
      (Merged(g, m1, t, c), MergedRoot(g, m1, root1, t, c))
  }

  /** `m'` comes from merging the pairs of the least map that relates `id` to `c`. */
  ghost predicate MergeRun(noFwds: bool, g: seq<BtfType>, m: seq<nat>, root: seq<nat>, id: nat, c: nat,
                           m': seq<nat>, root': seq<nat>, h: seq<nat>, l: seq<nat>)
    requires WfGraph(g) && |g| == |m| == |root| && InRange(root, |g|) && id < |g| && c < |g|
  {
    && |h| == |g| && ListsRecorded(h, l) && Bisimulation(noFwds, g, root, h) && Related(g, root, h, id, c)
    && Least(noFwds, g, root, h, id, c)
    && (forall i :: 0 <= i < |l| ==> l[i] < |g| && h[l[i]] < |g|)
    && (m', root') == MergeAll(g, m, root, h, l)
  }

  ghost predicate MergedFrom(noFwds: bool, g: seq<BtfType>, m: seq<nat>, root: seq<nat>, id: nat, c: nat,
                             m': seq<nat>, root': seq<nat>)
    requires WfGraph(g) && |g| == |m| == |root| && InRange(root, |g|) && id < |g| && c < |g|
  {
    exists h, l :: MergeRun(noFwds, g, m, root, id, c, m', root', h, l)
  }

  lemma MergeNone(g: seq<BtfType>, m: seq<nat>, root: seq<nat>, h: seq<nat>)
    requires |g| == |m| == |root| == |h| && InRange(root, |g|)
    ensures MergeAll(g, m, root, h, []) == (m, root)
  {
  }

  lemma MergeOne(g: seq<BtfType>, m: seq<nat>, root: seq<nat>, h: seq<nat>, l: seq<nat>, i: nat)
    requires |g| == |m| == |root| == |h| && InRange(root, |g|) && i < |l|
    requires forall k :: 0 <= k < |l| ==> l[k] < |g| && h[l[k]] < |g|
    ensures var (m1, root1) := MergeAll(g, m, root, h, l[..i]);
            var (t, c) := (root1[h[l[i]]], root1[l[i]]);
            MergeAll(g, m, root, h, l[..i + 1]) == (Merged(g, m1, t, c), MergedRoot(g, m1, root1, t, c))
  {
    hide Merged, MergedRoot;
    assert l[..i + 1][..i] == l[..i];
  }

  lemma CheckIsMerged(noFwds: bool, g: seq<BtfType>, m: seq<nat>, root: seq<nat>, id: nat, c: nat, m': seq<nat>,
                      root': seq<nat>, h0: seq<nat>, h: seq<nat>, l: seq<nat>)
    requires WfGraph(g) && |g| == |m| == |root| == |h0| == |h| && InRange(root, |g|) && id < |g| && c < |g|
    requires forall x :: 0 <= x < |h0| ==> !Recorded(h0, x)
    requires Forced(noFwds, g, root, h0, h, id, c) && NewPairsClosed(noFwds, g, root, h0, h, -1)
    requires Related(g, root, h, id, c) && ListsRecorded(h, l)
    requires forall i :: 0 <= i < |l| ==> l[i] < |g| && h[l[i]] < |g|
    requires (m', root') == MergeAll(g, m, root, h, l)
    ensures MergedFrom(noFwds, g, m, root, id, c, m', root')
  {
    hide WfGraph, Forced, NewPairsClosed, Least, Bisimulation, MergeAll, Related, ListsRecorded;
    ForcedIsLeast(noFwds, g, root, h0, h, id, c);
    assert MergeRun(noFwds, g, m, root, id, c, m', root', h, l);
  }

  /** What pass 3 does with a struct or union that is not mapped yet: it is mapped to an
      equivalent canonical one, or, if there is none, to itself and added to its bucket. */
  ghost predicate StructDone(noFwds: bool, exact: bool, g: seq<BtfType>, t: Turn, id: nat, t': Turn)
    requires WfGraph(g) && |g| == |t.root| == |t.m| == |t'.m| && InRange(t.root, |g|) && |t.table| > 0
    requires id < |g| && IsComposite(g[id].info.kind)
  {
    var b := Buckets(|t.table|)(g[id]);
    && b < |t.table|
    && if t'.m[id] == id then
         && t'.table == TableAdd(t.table, b, id) && t'.m == t.m[id := id] && t'.root == t.root
         && forall x :: 0 <= x < |g| && t.m[x] == x ==> !Equivalent(noFwds, g, t.root, id, x)
       else
         && t'.table == t.table && LinksOnly(exact, t.m, t'.m)
         && t'.m[id] < |g| && t.m[t'.m[id]] == t'.m[id] && Equivalent(noFwds, g, t.root, id, t'.m[id])
         && MergedFrom(noFwds, g, t.m, t.root, id, t'.m[id], t'.m, t'.root)
  }

  /** One turn of pass 3. */
  ghost predicate StructStep(noFwds: bool, exact: bool, g: seq<BtfType>, t: Turn, id: nat, t': Turn)
    requires WfGraph(g) && |g| == |t.root| == |t.m| == |t'.m| && InRange(t.root, |g|) && |t.table| > 0 && id < |g|
  {
    if IsComposite(g[id].info.kind) && !Mapped(t.m, id) then StructDone(noFwds, exact, g, t, id, t') else t' == t
  }

  /** A run of pass 3 after pass 2: `turns[i - 1]` is the state when the turn of `i` comes, and
      the last state is what the pass leaves. */
  ghost predicate PassThree(strs: string, noFwds: bool, exact: bool, g: seq<BtfType>, turns: seq<Turn>) {
    |turns| == |g| && TurnsSoFar(strs, noFwds, exact, g, turns)
  }

  ghost predicate TurnsSoFar(strs: string, noFwds: bool, exact: bool, g: seq<BtfType>, turns: seq<Turn>) {
    && WfGraph(g) && 0 < |turns| <= |g|
    && (forall k :: 0 <= k < |turns| ==> TurnOk(strs, exact, g, turns[k]))
    && PrimsOnly(g, turns[0].m, |g| - 1) && PrimsDiffer(g, turns[0].m)
    && (forall i :: 0 < i < |turns| ==> StepAt(noFwds, exact, g, turns, i))
  }

  lemma FirstTurn(strs: string, noFwds: bool, exact: bool, g: seq<BtfType>, t: Turn)
    requires TurnOk(strs, exact, g, t) && PrimsOnly(g, t.m, |g| - 1) && PrimsDiffer(g, t.m)
    ensures TurnsSoFar(strs, noFwds, exact, g, [t])
  {
    hide TableOk, PrimsOnly, PrimsDiffer, Forest, LinksTyped, Sound, EndsMapped;
  }

  lemma NextTurn(strs: string, noFwds: bool, exact: bool, g: seq<BtfType>, turns: seq<Turn>, t: Turn)
    requires TurnsSoFar(strs, noFwds, exact, g, turns) && |turns| < |g| && TurnOk(strs, exact, g, t)
    requires var i := |turns|;
             && |g| == |turns[i - 1].root| == |turns[i - 1].m| == |t.m| && InRange(turns[i - 1].root, |g|)
             && |turns[i - 1].table| > 0 && StructStep(noFwds, exact, g, turns[i - 1], i, t)
    ensures TurnsSoFar(strs, noFwds, exact, g, turns + [t])
  {
    hide TurnOk, PrimsOnly, PrimsDiffer, StructStep, WfGraph;
    var turns' := turns + [t];
    forall i | 0 < i < |turns'| ensures StepAt(noFwds, exact, g, turns', i) {
      assert i < |turns| ==> StepAt(noFwds, exact, g, turns, i);
    }
  }

  /** Canonical primitive types differ. */
  ghost predicate PrimsDiffer(g: seq<BtfType>, m: seq<nat>) {
    && |g| == |m|
    && forall i, j :: 0 < i < |g| && 0 < j < |g| && m[i] == i && m[j] == j && g[i] == g[j] ==> i == j
  }


  /** The map as pass 2 leaves it. */
  ghost predicate PrimsOnly(g: seq<BtfType>, m: seq<nat>, done: int) {
    |g| == |m| && forall i :: 0 < i < |g| ==> PrimMapped(g, m, i, done)
  }

  ghost predicate StepAt(noFwds: bool, exact: bool, g: seq<BtfType>, turns: seq<Turn>, i: nat)
    requires 0 < i < |turns|
  {
    var t, t' := turns[i - 1], turns[i];
    && i < |g| && WfGraph(g) && |g| == |t.root| == |t.m| == |t'.m| && InRange(t.root, |g|) && |t.table| > 0
    && StructStep(noFwds, exact, g, t, i, t')
  }

  /** Looking through one bucket is looking through all the canonical structs and unions. */
  lemma BucketHasAll(noFwds: bool, g: seq<BtfType>, m: seq<nat>, root: seq<nat>, table: seq<seq<nat>>, id: nat, x: nat)
    requires WfGraph(g) && |g| == |root| && InRange(root, |g|) && TableOk(g, m, table)
    requires id < |g| && x < |g| && IsComposite(g[id].info.kind) && m[x] == x && Equivalent(noFwds, g, root, id, x)
    ensures Buckets(|table|)(g[id]) < |table| && x in table[Buckets(|table|)(g[id])]
  {
    hide Distinguished, Buckets, ShallowEqualStruct;
    AlikeIsComposite(g[id], g[x]);
    AlikeShareBucket(|table|, g[id], g[x]);
    assert InBucket(g, table, x);
  }

  // ----- pass 3: merging a hypothetical map into the canonical map -----

  /** What a successful check says about the pair recorded for `c`, apart from any map. */
  ghost predicate PairFact(strs: string, exact: bool, g: seq<BtfType>, h: seq<nat>, c: nat)
    requires WfGraph(g) && |g| == |h| && c < |h|
  {
    && h[c] < |g|
    && g[c].nameOff == g[h[c]].nameOff
    && DeclaredKind(g[c]) == DeclaredKind(g[h[c]])
    && (exact ==> g[c].info.kind == g[h[c]].info.kind && Same(strs, g, c, h[c]))
  }

  ghost predicate PairFacts(strs: string, exact: bool, g: seq<BtfType>, h: seq<nat>) {
    && WfGraph(g) && |g| == |h|
    && forall c :: 0 <= c < |h| && Recorded(h, c) ==> PairFact(strs, exact, g, h, c)
  }

  lemma BisimulationGivesFacts(strs: string, exact: bool, noFwds: bool, g: seq<BtfType>, m: seq<nat>, root: seq<nat>,
                               dist: seq<nat>, h: seq<nat>)
    requires CanonOk(strs, exact, g, m, root, dist) && |h| == |g| && Bisimulation(noFwds, g, root, h)
    requires exact ==> noFwds || NoFwd(g)
    ensures PairFacts(strs, exact, g, h)
  {
    hide Bisimulation, Sound, Same, WfGraph, NoFwd;
    if exact {
      ModesAgree(noFwds, g, root, h);
    }
    forall c | 0 <= c < |h| && Recorded(h, c) ensures PairFact(strs, exact, g, h, c) {
      PairsTyped(noFwds, g, root, h, c);
      if exact {
        PairsMeanTheSame(strs, g, root, h, c);
      }
    }
  }

  /** The ends of the chains of a pair may be linked, in either direction that does not
      lead from a struct or union to a FWD. */
  lemma PairEnds(strs: string, exact: bool, g: seq<BtfType>, m: seq<nat>, root: seq<nat>, dist: seq<nat>, h: seq<nat>,
                 c: nat)
    requires CanonOk(strs, exact, g, m, root, dist) && PairFacts(strs, exact, g, h)
    requires c < |h| && Recorded(h, c)
    ensures h[c] < |g| && root[h[c]] < |g| && root[c] < |g|
    ensures !IsLink(m, root[h[c]]) && !IsLink(m, root[c])
    ensures (!IsLink(m, h[c]) ==> root[h[c]] == h[c]) && (!IsLink(m, c) ==> root[c] == c)
    ensures g[root[c]].nameOff == g[root[h[c]]].nameOff && DeclaredKind(g[root[c]]) == DeclaredKind(g[root[h[c]]])
    ensures IsComposite(g[c].info.kind) ==> g[root[c]].info.kind != FWD
    ensures IsComposite(g[h[c]].info.kind) ==> g[root[h[c]]].info.kind != FWD
    ensures exact ==> g[root[c]].info.kind == g[root[h[c]]].info.kind
    ensures exact ==> Same(strs, g, root[c], root[h[c]]) && Same(strs, g, root[h[c]], root[c])
  {
    hide Unfold, WfGraph;
    var t := h[c];
    assert PairFact(strs, exact, g, h, c);
    assert ChainEnds(m, root, dist, c) && ChainEnds(m, root, dist, t);
    assert ChainTyped(g, m, root, c) && ChainTyped(g, m, root, t);
    if exact {
      assert ChainSound(strs, g, root, c) && ChainSound(strs, g, root, t);
      forall k: nat ensures Unfold(strs, g, root[c], k) == Unfold(strs, g, root[t], k) {
        assert Unfold(strs, g, root[c], k) == Unfold(strs, g, c, k);
        assert Unfold(strs, g, root[t], k) == Unfold(strs, g, t, k);
      }
    }
  }

  /** What stands for something other than a FWD goes on doing so. */
  ghost predicate StaysResolved(g: seq<BtfType>, root: seq<nat>, root': seq<nat>) {
    && |g| == |root| == |root'| && InRange(root, |g|) && InRange(root', |g|)
    && forall x :: 0 <= x < |g| && g[root[x]].info.kind != FWD ==> g[root'[x]].info.kind != FWD
  }

  /** A FWD paired with a struct or union stands for a struct or union. */
  ghost predicate PairResolved(g: seq<BtfType>, root: seq<nat>, h: seq<nat>, c: nat)
    requires |g| == |root| == |h| && InRange(root, |g|) && c < |g|
  {
    h[c] < |g| && (IsComposite(g[c].info.kind) || IsComposite(g[h[c]].info.kind) ==>
                     g[root[c]].info.kind != FWD && g[root[h[c]]].info.kind != FWD)
  }

  lemma RerootResolves(g: seq<BtfType>, root: seq<nat>, r: nat, c: nat)
    requires |g| == |root| && InRange(root, |g|) && r < |g| && c < |g| && LinkAllowed(g[r], g[c])
    ensures StaysResolved(g, root, Reroot(root, r, c))
  {
  }

  lemma ResolvedRefl(g: seq<BtfType>, root: seq<nat>)
    requires |g| == |root| && InRange(root, |g|)
    ensures StaysResolved(g, root, root)
  {
  }

  lemma ResolvedKept(g: seq<BtfType>, root: seq<nat>, root': seq<nat>, h: seq<nat>, l: seq<nat>, n: nat)
    requires |g| == |root| == |h| && InRange(root, |g|) && n < |l| && InRange(l, |g|) && StaysResolved(g, root, root')
    requires (forall k :: 0 <= k < n ==> PairResolved(g, root, h, l[k])) && PairResolved(g, root', h, l[n])
    ensures forall k :: 0 <= k < n + 1 ==> PairResolved(g, root', h, l[k])
  {
  }

  lemma ListedInRange(h: seq<nat>, l: seq<nat>, n: nat)
    requires ListsRecorded(h, l) && forall c :: 0 <= c < |h| && Recorded(h, c) ==> h[c] < n
    ensures InRange(l, |h|) && forall i :: 0 <= i < |l| ==> h[l[i]] < n
  {
  }

  lemma ListedAt(h: seq<nat>, l: seq<nat>, i: nat)
    requires ListsRecorded(h, l) && i < |l|
    ensures l[i] < |h| && Recorded(h, l[i])
  {
  }

  /** What is mapped stays mapped, and a mapped struct or union keeps its link. */
  predicate MapKept(g: seq<BtfType>, m: seq<nat>, m': seq<nat>) {
    && |g| == |m| == |m'|
    && forall i :: 0 <= i < |m| && Mapped(m, i) ==> Mapped(m', i) && (IsComposite(g[i].info.kind) ==> m'[i] == m[i])
  }

  lemma MapKeptStep(g: seq<BtfType>, m0: seq<nat>, m: seq<nat>, r: nat, v: nat)
    requires MapKept(g, m0, m) && r < |m| && v <= MAX_ID
    requires IsComposite(g[r].info.kind) ==> !Mapped(m, r)
    ensures MapKept(g, m0, m[r := v])
  {
  }

  /** The nonreference kinds after pass 3. */
  predicate NonRefsMapped(g: seq<BtfType>, m: seq<nat>) {
    |g| == |m| && forall i :: 0 <= i < |g| && !IsRef(g[i].info.kind) ==> Mapped(m, i)
  }

  lemma MapKeptRefl(g: seq<BtfType>, m: seq<nat>)
    requires |g| == |m|
    ensures MapKept(g, m, m)
  {
  }

  lemma KeptAfter(g: seq<BtfType>, m: seq<nat>, m': seq<nat>, i: nat)
    requires MapKept(g, m, m') && i < |m| && IsComposite(g[i].info.kind)
    ensures Mapped(m, i) ==> m'[i] == m[i]
  {
  }

  /** Pass 3 has mapped the structs and unions below `n`, and pass 2 the primitive types. */
  predicate DoneUpTo(g: seq<BtfType>, m: seq<nat>, n: nat) {
    && |g| == |m|
    && forall i :: 0 < i < |g| && (IsPrim(g[i].info.kind) || (i < n && IsComposite(g[i].info.kind))) ==> Mapped(m, i)
  }

  lemma DoneFirst(g: seq<BtfType>, m: seq<nat>)
    requires PrimsOnly(g, m, |g| - 1) && |g| <= MAX_ID + 1
    ensures DoneUpTo(g, m, 1)
  {
    forall i | 0 < i < |g| && IsPrim(g[i].info.kind) ensures Mapped(m, i) {
      assert PrimMapped(g, m, i, |g| - 1);
    }
  }

  lemma DoneNext(g: seq<BtfType>, m: seq<nat>, m': seq<nat>, n: nat)
    requires DoneUpTo(g, m, n) && MapKept(g, m, m') && n < |g| && (IsComposite(g[n].info.kind) ==> Mapped(m', n))
    ensures DoneUpTo(g, m', n + 1)
  {
  }

  lemma DoneAll(g: seq<BtfType>, m: seq<nat>)
    requires DoneUpTo(g, m, |g|) && AllKnown(g) && |g| > 0 && m[0] == 0
    ensures NonRefsMapped(g, m)
  {
  }

  lemma MapKeptTrans(g: seq<BtfType>, m0: seq<nat>, m1: seq<nat>, m2: seq<nat>)
    requires MapKept(g, m0, m1) && MapKept(g, m1, m2)
    ensures MapKept(g, m0, m2)
  {
  }

  lemma EndsAreRoots(strs: string, exact: bool, g: seq<BtfType>, m: seq<nat>, root: seq<nat>, dist: seq<nat>, i: nat)
    requires CanonOk(strs, exact, g, m, root, dist) && i < |g| && !IsLink(m, i)
    ensures |root| == |g| && root[i] == i
  {
    assert ChainEnds(m, root, dist, i);
  }

  lemma StartPrims(strs: string, exact: bool, g: seq<BtfType>, m: seq<nat>, root: seq<nat>, dist: seq<nat>,
                   table: seq<seq<nat>>)
    requires CanonOk(strs, exact, g, m, root, dist) && TableOk(g, m, table)
    requires (forall i :: 0 < i < |m| ==> m[i] == UNPROCESSED) && (forall b :: 0 <= b < |table| ==> table[b] == [])
    ensures |g| > 0 && |table| > 0 && PrimExact(g, m, table, Buckets(|table|), 0)
  {
  }

  lemma PrimsAreMapped(g: seq<BtfType>, m: seq<nat>, table: seq<seq<nat>>, bucket: BtfType -> nat)
    requires 0 < |g| <= MAX_ID + 1 && PrimExact(g, m, table, bucket, |g| - 1)
    ensures |m| == |g| && forall i :: 0 < i < |g| && IsPrim(g[i].info.kind) ==> Mapped(m, i)
    ensures PrimsOnly(g, m, |g| - 1) && PrimsDiffer(g, m)
  {
    forall i | 0 < i < |g| && IsPrim(g[i].info.kind) ensures Mapped(m, i) {
      assert PrimMapped(g, m, i, |g| - 1);
    }
  }

  lemma VoidMapped(strs: string, exact: bool, g: seq<BtfType>, m: seq<nat>, root: seq<nat>, dist: seq<nat>)
    requires CanonOk(strs, exact, g, m, root, dist)
    ensures |m| == |g| && m[0] == 0
  {
  }

  lemma NothingListed(h: seq<nat>, l: seq<nat>)
    requires l == [] && forall c :: 0 <= c < |h| ==> !Recorded(h, c)
    ensures ListsRecorded(h, l)
  {
  }

  lemma BucketsAreBuckets(size: nat)
    requires size > 0
    ensures IsBucketing(Buckets(size), size)
  {
  }

  lemma BucketInRange(size: nat, t: BtfType)
    requires size > 0
    ensures Buckets(size)(t) < size
  {
  }

  lemma TableEntry(g: seq<BtfType>, m: seq<nat>, table: seq<seq<nat>>, b: nat, i: nat)
    requires TableOk(g, m, table) && b < |table| && i < |table[b]|
    ensures table[b][i] < |g| && Mapped(m, table[b][i])
    ensures IsComposite(g[table[b][i]].info.kind) ==> m[table[b][i]] == table[b][i]
  {
    assert table[b][i] in table[b];
  }

  /** A check that starts from an empty hypothetical map and succeeds has related the two
      types it was asked about, and the pair it recorded for them comes first. */
  lemma CheckSucceeded(strs: string, exact: bool, noFwds: bool, g: seq<BtfType>, m: seq<nat>, root: seq<nat>,
                       dist: seq<nat>, table: seq<seq<nat>>, h0: seq<nat>, h: seq<nat>, id: nat, cand: nat)
    requires CanonOk(strs, exact, g, m, root, dist) && |h| == |h0| == |g| && InRange(root, |g|)
    requires id < |g| && cand < |g| && IsComposite(g[cand].info.kind) && !Mapped(m, id) && m[cand] == cand
    requires forall c :: 0 <= c < |h0| ==> !Recorded(h0, c)
    requires Related(g, root, h, id, cand) && NewPairsClosed(noFwds, g, root, h0, h, -1)
    requires exact ==> noFwds || NoFwd(g)
    ensures PairFacts(strs, exact, g, h)
    ensures root[id] != root[cand] && ResolveFwd(g, root, cand) == cand && h[cand] == id
  {
    hide PairFacts, Sound, NoFwd;
    assert Bisimulation(noFwds, g, root, h);
    BisimulationGivesFacts(strs, exact, noFwds, g, m, root, dist, h);
    EndsAreRoots(strs, exact, g, m, root, dist, id);
    EndsAreRoots(strs, exact, g, m, root, dist, cand);
  }
}
