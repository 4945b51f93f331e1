/** A run in which a resolved FWD decides: two structs named x point, through a FWD of s and
    through two definitions of s of different size, and only one of the definitions is what the
    FWD stands for. */
module FwdRun {
  import opened BtfTypes
  import opened CanonMap
  import opened HypotMap
  import opened EquivMeaning
  import opened DedupSpec
  import opened RefPass
  import opened OneCopy

  const S := 1
  const X := 3

  function Ptr(to: nat): BtfType {
    BtfType(0, Info(PTR, 0, false, 0), 0, [], [], [to])
  }

  function Holder(to: nat): BtfType {
    BtfType(X, Info(STRUCT, 1, false, 0), 8, [0], [0], [to])
  }

  /** Struct 4 points to the FWD 2, struct 7 to the definition 5 and struct 10 to the larger
      definition 8. */
  const GRAPH: seq<BtfType> := [VOID, BtfType(0, Info(INT, 0, false, 0), 4, [], [32], []),
                                BtfType(S, Info(FWD, 0, false, 0), 0, [], [], [0]), Ptr(2), Holder(3),
                                BtfType(S, Info(STRUCT, 1, false, 0), 4, [0], [0], [1]), Ptr(5), Holder(6),
                                BtfType(S, Info(STRUCT, 2, false, 0), 8, [0, 0], [0, 32], [1, 1]), Ptr(8), Holder(9)]

  lemma GraphWf()
    ensures WfGraph(GRAPH) && |GRAPH| == 11
  {
    forall i | 0 <= i < |GRAPH| ensures WfType(GRAPH[i]) && RefsBelow(GRAPH[i], |GRAPH|) {
    }
  }

  /** The kinds, names and references of the graph, and which descriptors look alike. */
  ghost predicate Facts(g: seq<BtfType>) {
    && |g| == 11 && g[0].info.kind == UNKN && g[1].info.kind == INT && g[2].info.kind == FWD
    && g[3].info.kind == g[6].info.kind == g[9].info.kind == PTR
    && g[4].info.kind == g[5].info.kind == g[7].info.kind == g[8].info.kind == g[10].info.kind == STRUCT
    && g[4].nameOff == g[7].nameOff == g[10].nameOff == X && g[5].nameOff == g[8].nameOff == S
    && g[5].info != g[8].info
    && g[3].refs == [2] && g[4].refs == [3] && g[6].refs == [5] && g[7].refs == [6] && g[9].refs == [8]
    && g[10].refs == [9]
    && SameShape(g[6], g[3]) && SameShape(g[7], g[4]) && FwdPair(g[5], g[2])
    && g[6].nameOff == g[3].nameOff && g[5].nameOff == g[2].nameOff
  }

  lemma GraphIs(g: seq<BtfType>)
    requires g == GRAPH
    ensures Facts(g)
  {
    assert Shape(g[6]) == Shape(g[3]) && Shape(g[7]) == Shape(g[4]);
  }

  /** The map when the turn of `i` comes: turn 7 maps 7 to 4 and the FWD to 5. */
  ghost predicate MapAt(m: seq<nat>, i: nat) {
    && |m| == 11 && m[0] == 0 && m[1] == 1 && m[2] == (if i <= 7 then 2 else 5)
    && m[3] == m[6] == m[9] == UNPROCESSED
    && m[4] == (if i <= 4 then UNPROCESSED else 4) && m[5] == (if i <= 5 then UNPROCESSED else 5)
    && m[7] == (if i <= 7 then UNPROCESSED else 4) && m[8] == (if i <= 8 then UNPROCESSED else 8)
    && m[10] == (if i <= 10 then UNPROCESSED else 10)
  }

  ghost predicate RootAt(root: seq<nat>, i: nat) {
    root == [0, 1, if i <= 7 then 2 else 5, 3, 4, 5, 6, if i <= 7 then 7 else 4, 8, 9, 10]
  }

  lemma RootsAt(strs: string, t: Turn, i: nat)
    requires TurnOk(strs, false, GRAPH, t) && MapAt(t.m, i)
    ensures RootAt(t.root, i) && |t.m| == |t.root| == |GRAPH|
  {
    hide CanonOk, TableOk, Forest;
    var (m, root, dist) := (t.m, t.root, t.dist);
    TypedSizes(strs, false, GRAPH, m, root, dist);
    forall k | 0 <= k < 11 && (m[k] == k || m[k] == UNPROCESSED) ensures root[k] == k {
      EndIsSelf(m, root, dist, k);
    }
    if i > 7 {
      LinkEndsAt(m, root, dist, 2, 5);
      LinkEndsAt(m, root, dist, 7, 4);
    }
  }

  lemma EndIsSelf(m: seq<nat>, root: seq<nat>, dist: seq<nat>, k: nat)
    requires Forest(m, root, dist) && k < |m| && (m[k] == k || m[k] > MAX_ID)
    ensures root[k] == k
  {
    assert ChainEnds(m, root, dist, k);
  }

  lemma LinkEndsAt(m: seq<nat>, root: seq<nat>, dist: seq<nat>, k: nat, c: nat)
    requires Forest(m, root, dist) && k < |m| && c < |m| && m[k] == c <= MAX_ID && k != c && m[c] == c
    ensures root[k] == c
  {
    assert ChainEnds(m, root, dist, k) && ChainEnds(m, root, dist, c);
  }

  lemma TypedSizes(strs: string, exact: bool, g: seq<BtfType>, m: seq<nat>, root: seq<nat>, dist: seq<nat>)
    requires CanonOk(strs, exact, g, m, root, dist)
    ensures Forest(m, root, dist) && |m| == |root| == |dist| == |g|
  {
  }

  // ----- turn 7: the FWD is resolved -----

  /** Struct 7 opposite 4, pointer 6 opposite 3, and definition 5 opposite the FWD. */
  const PAIRS: seq<nat> := [UNPROCESSED, UNPROCESSED, 5, 6, 7, UNPROCESSED, UNPROCESSED, UNPROCESSED, UNPROCESSED,
                            UNPROCESSED, UNPROCESSED]

  lemma PairsAreClosed(g: seq<BtfType>, root: seq<nat>)
    requires WfGraph(g) && Facts(g) && RootAt(root, 7)
    ensures |root| == 11 && InRange(root, 11) && Bisimulation(false, g, root, PAIRS)
    ensures Related(g, root, PAIRS, 7, 4)
  {
    hide WfGraph, FwdPair, SameShape;
    var h := PAIRS;
    assert PairClosed(false, g, root, h, 2) && PairClosed(false, g, root, h, 3) && PairClosed(false, g, root, h, 4);
  }

  /** Whatever relates 7 to 4 holds these pairs. */
  lemma PairsAreForced(g: seq<BtfType>, root: seq<nat>, h: seq<nat>)
    requires WfGraph(g) && Facts(g) && RootAt(root, 7) && |h| == 11 && InRange(root, 11)
    requires Bisimulation(false, g, root, h) && Related(g, root, h, 7, 4)
    ensures h[4] == 7 && h[3] == 6 && h[2] == 5
  {
    hide WfGraph, FwdPair, SameShape;
    RelatedIff(g, root, h, 7, 4);
    assert PairClosed(false, g, root, h, 4) && !FwdPair(g[7], g[4]) by {
      StructsAreNoFwds(g[7], g[4]);
    }
    assert Related(g, root, h, g[7].refs[0], g[4].refs[0]);
    RelatedIff(g, root, h, 6, 3);
    assert PairClosed(false, g, root, h, 3) && !FwdPair(g[6], g[3]) by {
      StructsAreNoFwds(g[6], g[3]);
    }
    assert Related(g, root, h, g[6].refs[0], g[3].refs[0]);
    RelatedIff(g, root, h, 5, 2);
  }

  lemma StructsAreNoFwds(a: BtfType, b: BtfType)
    requires a.info.kind != FWD && b.info.kind != FWD
    ensures !FwdPair(a, b)
  {
  }

  ghost predicate ThreePairs(h: seq<nat>, l: seq<nat>) {
    && |h| == 11 && h[2] == 5 && h[3] == 6 && h[4] == 7
    && (forall i :: 0 <= i < |l| ==> l[i] == 2 || l[i] == 3 || l[i] == 4)
    && (forall i, j :: 0 <= i < j < |l| ==> l[i] != l[j])
  }

  /** What is left once the pairs of 2 and of 4 have been merged, or not yet. */
  ghost predicate PartMerged(m: seq<nat>, root: seq<nat>, m': seq<nat>, root': seq<nat>, two: bool, four: bool)
    requires |m| == |root| == 11
  {
    && m' == m[2 := if two then 5 else 2][7 := if four then 4 else UNPROCESSED]
    && root' == root[2 := if two then 5 else 2][7 := if four then 4 else 7]
  }

  /** Merging them maps 7 to 4 and the FWD to 5, in whatever order. */
  lemma {:induction false} MergedSoFar(g: seq<BtfType>, m: seq<nat>, root: seq<nat>, h: seq<nat>, l: seq<nat>)
    requires |g| == |m| == |root| == |h| == 11 && InRange(root, |g|)
    requires Facts(g) && MapAt(m, 7) && RootAt(root, 7) && ThreePairs(h, l)
    requires forall i :: 0 <= i < |l| ==> l[i] < |g| && h[l[i]] < |g|
    ensures var (m', root') := MergeAll(g, m, root, h, l); PartMerged(m, root, m', root', 2 in l, 4 in l)
    decreases |l|
  {
    hide Facts, MapAt, RootAt, ThreePairs, Merged, MergedRoot, PartMerged;
    if l == [] {
      NoneMerged(m, root);
    } else {
      var k, n := l[..|l| - 1], |l| - 1;
      LastPair(h, l);
      MergedSoFar(g, m, root, h, k);
      var (m1, root1) := MergeAll(g, m, root, h, k);
      OneMerged(g, m, root, m1, root1, 2 in k, 4 in k, h, l[n]);
    }
  }

  lemma LastPair(h: seq<nat>, l: seq<nat>)
    requires ThreePairs(h, l) && l != []
    ensures var (k, d) := (l[..|l| - 1], l[|l| - 1]);
            && ThreePairs(h, k) && ThreePairs(h, [d]) && (d == 2 || d == 3 || d == 4) && d !in k
            && (2 in l <==> 2 in k || d == 2) && (4 in l <==> 4 in k || d == 4)
  {
    assert l == l[..|l| - 1] + [l[|l| - 1]];
  }

  lemma NoneMerged(m: seq<nat>, root: seq<nat>)
    requires MapAt(m, 7) && RootAt(root, 7)
    ensures |m| == |root| == 11 && PartMerged(m, root, m, root, false, false)
  {
  }

  lemma OneMerged(g: seq<BtfType>, m: seq<nat>, root: seq<nat>, m1: seq<nat>, root1: seq<nat>, two: bool, four: bool,
                  h: seq<nat>, d: nat)
    requires Facts(g) && MapAt(m, 7) && RootAt(root, 7) && PartMerged(m, root, m1, root1, two, four)
    requires ThreePairs(h, [d]) && (d == 2 || d == 3 || d == 4)
    requires (d == 2 ==> !two) && (d == 4 ==> !four) && |g| == |m1| == |root1| == 11 && InRange(root1, 11)
    ensures var (t, c) := (root1[h[d]], root1[d]);
            && t < 11 && c < 11
            && PartMerged(m, root, Merged(g, m1, t, c), MergedRoot(g, m1, root1, t, c), two || d == 2, four || d == 4)
  {
    hide SameShape, FwdPair;
    assert h[2] == 5 && h[3] == 6 && h[4] == 7;
    var (t, c) := (root1[h[d]], root1[d]);
    assert Merged(g, m1, t, c) == if d == 4 then m1[7 := 4] else if d == 2 then m1[2 := 5] else m1;
    assert MergedRoot(g, m1, root1, t, c) == if d == 4 then root1[7 := 4] else if d == 2 then root1[2 := 5] else root1;
  }

  // ----- turn 10: the other definition is told apart -----

  lemma OtherIsToldApart(g: seq<BtfType>, root: seq<nat>)
    requires WfGraph(g) && Facts(g) && RootAt(root, 10)
    ensures |root| == 11 && InRange(root, 11) && Distinguished(false, g, root, 10, 4)
  {
    hide WfGraph, FwdPair, SameShape;
    forall h | |h| == 11 && Bisimulation(false, g, root, h) ensures !Related(g, root, h, 10, 4) {
      if Related(g, root, h, 10, 4) {
        RelatedIff(g, root, h, 10, 4);
        assert PairClosed(false, g, root, h, 4) && !FwdPair(g[10], g[4]) by {
          StructsAreNoFwds(g[10], g[4]);
        }
        assert Related(g, root, h, g[10].refs[0], g[4].refs[0]);
        RelatedIff(g, root, h, 9, 3);
        assert PairClosed(false, g, root, h, 3) && !FwdPair(g[9], g[3]) by {
          StructsAreNoFwds(g[9], g[3]);
        }
        assert Related(g, root, h, g[9].refs[0], g[3].refs[0]);
        RelatedIff(g, root, h, 8, 2);
        SizesDiffer(g, root, h);
      }
    }
  }

  lemma SizesDiffer(g: seq<BtfType>, root: seq<nat>, h: seq<nat>)
    requires WfGraph(g) && Facts(g) && |root| == |h| == 11 && InRange(root, 11) && h[5] == 8
    ensures !Bisimulation(false, g, root, h)
  {
    hide WfGraph;
    StructsAreNoFwds(g[8], g[5]);
    assert Shape(g[8]).info != Shape(g[5]).info;
    assert !PairClosed(false, g, root, h, 5);
  }

  // ----- the run -----

  lemma Start(strs: string, turns: seq<Turn>)
    requires PassThree(strs, false, false, GRAPH, turns)
    ensures |turns| == 11 && MapAt(turns[0].m, 1)
  {
    hide Sound, TableOk, Forest, LinksTyped, StepAt, WfGraph, PrimsDiffer;
    var g, m := GRAPH, turns[0].m;
    GraphIs(g);
    assert TurnOk(strs, false, g, turns[0]);
    VoidMapped(strs, false, g, m, turns[0].root, turns[0].dist);
    assert m[0] == 0;
    PrimIsSelf(g, m, 1);
    PrimIsSelf(g, m, 2);
    assert PrimMapped(g, m, 3, |g| - 1) && PrimMapped(g, m, 4, |g| - 1) && PrimMapped(g, m, 5, |g| - 1);
    assert PrimMapped(g, m, 6, |g| - 1) && PrimMapped(g, m, 7, |g| - 1) && PrimMapped(g, m, 8, |g| - 1);
    assert PrimMapped(g, m, 9, |g| - 1) && PrimMapped(g, m, 10, |g| - 1);
  }

  lemma PrimIsSelf(g: seq<BtfType>, m: seq<nat>, i: nat)
    requires g == GRAPH && PrimsOnly(g, m, 10) && (i == 1 || i == 2)
    ensures m[i] == i
  {
    GraphIs(g);
    assert PrimMapped(g, m, i, 10);
    assert g[m[i]].info.kind == g[i].info.kind;
  }

  lemma OneTurn(strs: string, turns: seq<Turn>, i: nat)
    requires PassThree(strs, false, false, GRAPH, turns) && 0 < i < 11 && MapAt(turns[i - 1].m, i)
    ensures MapAt(turns[i].m, i + 1)
  {
    hide WfGraph, PrimsDiffer, PrimsOnly, TurnOk, StructDone, WfType;
    var g, t, t' := GRAPH, turns[i - 1], turns[i];
    GraphIs(g);
    assert StepAt(false, false, g, turns, i) && TurnOk(strs, false, g, t);
    RootsAt(strs, t, i);
    if i == 4 || i == 5 || i == 8 || i == 10 {
      NewStruct(g, t, i, t');
    } else if i == 7 {
      TurnSeven(g, t, t');
    }
  }

  /** Structs 4, 5, 8 and 10 become canonical: nothing canonical looks like them, or it does and
      is told apart. */
  lemma NewStruct(g: seq<BtfType>, t: Turn, i: nat, t': Turn)
    requires Facts(g) && (i == 4 || i == 5 || i == 8 || i == 10) && WfGraph(g) && MapAt(t.m, i) && RootAt(t.root, i)
    requires |g| == |t.m| == |t.root| == |t'.m| && InRange(t.root, |g|) && |t.table| > 0
    requires StructDone(false, false, g, t, i, t')
    ensures t'.m == t.m[i := i]
  {
    hide WfGraph, Distinguished, Buckets, LinksOnly, MergedFrom, WfType, SameShape, FwdPair;
    GraphBasics(g);
    if i == 10 {
      OtherIsToldApart(g, t.root);
    }
    assert t'.m[i] == i;
  }

  lemma TurnSeven(g: seq<BtfType>, t: Turn, t': Turn)
    requires Facts(g) && WfGraph(g) && MapAt(t.m, 7) && RootAt(t.root, 7)
    requires |g| == |t.m| == |t.root| == |t'.m| && InRange(t.root, |g|) && |t.table| > 0
    requires StructDone(false, false, g, t, 7, t')
    ensures t'.m == t.m[2 := 5][7 := 4]
  {
    hide WfGraph, Buckets, LinksOnly, WfType, Bisimulation, MergeRun, Related, SameShape, FwdPair;
    GraphBasics(g);
    PairsAreClosed(g, t.root);
    HoldersAreAlike(g);
    assert Equivalent(false, g, t.root, 7, 4);
    assert t'.m[7] == 4;
    var h, l :| MergeRun(false, g, t.m, t.root, 7, 4, t'.m, t'.root, h, l);
    LeastIsPairs(g, t.root, t.m, t'.m, t'.root, h, l);
    MergedSoFar(g, t.m, t.root, h, l);
    assert PartMerged(t.m, t.root, t'.m, t'.root, true, true);
  }

  lemma HoldersAreAlike(g: seq<BtfType>)
    requires Facts(g) && WfGraph(g)
    ensures ShallowEqualStruct(g[7], g[4])
  {
    ShapesLookAlike(g, 7, 4);
  }

  lemma ShapesLookAlike(g: seq<BtfType>, i: nat, j: nat)
    requires WfGraph(g) && i < |g| && j < |g| && SameShape(g[i], g[j]) && IsComposite(g[i].info.kind)
    ensures ShallowEqualStruct(g[i], g[j])
  {
    var s, t := Shape(g[i]), Shape(g[j]);
    assert g[i].nameOff == s.nameOff && g[j].nameOff == t.nameOff && g[i].info == s.info && g[j].info == t.info;
    assert g[i].size == s.size && g[j].size == t.size && g[i].slotNames == s.slotNames && g[j].slotNames == t.slotNames;
    assert g[i].slotVals == s.slotVals && g[j].slotVals == t.slotVals;
  }

  /** The map that was merged is the least one, so it holds the three pairs and no others. */
  lemma LeastIsPairs(g: seq<BtfType>, root: seq<nat>, m: seq<nat>, m': seq<nat>, root': seq<nat>, h: seq<nat>,
                     l: seq<nat>)
    requires WfGraph(g) && Facts(g) && RootAt(root, 7) && |root| == |m| == 11 && InRange(root, 11)
    requires MergeRun(false, g, m, root, 7, 4, m', root', h, l)
    ensures ThreePairs(h, l) && 2 in l && 4 in l
    ensures forall i :: 0 <= i < |l| ==> l[i] < 11 && h[l[i]] < 11
    ensures (m', root') == MergeAll(g, m, root, h, l)
  {
    hide WfGraph, SameShape, FwdPair, Bisimulation, Related, MergeAll;
    PairsAreClosed(g, root);
    PairsAreForced(g, root, h);
    assert Extends(h, PAIRS);
    assert Recorded(h, 2) && Recorded(h, 4);
    forall i | 0 <= i < |l| ensures l[i] == 2 || l[i] == 3 || l[i] == 4 {
      assert Recorded(h, l[i]) && PAIRS[l[i]] == h[l[i]];
    }
  }

  /** Every run of pass 3 keeps structs 4 and 10 apart. */
  lemma StaysApart(strs: string, turns: seq<Turn>)
    requires PassThree(strs, false, false, GRAPH, turns)
    ensures |turns| == 11 && MapAt(turns[10].m, 11) && RootAt(turns[10].root, 11)
  {
    hide PassThree, MapAt, RootAt;
    Start(strs, turns);
    OneTurn(strs, turns, 1);
    OneTurn(strs, turns, 2);
    OneTurn(strs, turns, 3);
    OneTurn(strs, turns, 4);
    OneTurn(strs, turns, 5);
    OneTurn(strs, turns, 6);
    OneTurn(strs, turns, 7);
    OneTurn(strs, turns, 8);
    OneTurn(strs, turns, 9);
    OneTurn(strs, turns, 10);
    LastIsOk(strs, turns);
    RootsAt(strs, turns[10], 11);
  }

  lemma LastIsOk(strs: string, turns: seq<Turn>)
    requires PassThree(strs, false, false, GRAPH, turns) && |turns| == 11
    ensures TurnOk(strs, false, GRAPH, turns[10])
  {
    hide TurnOk, StepAt, PrimsOnly, PrimsDiffer;
  }

  lemma RunsToTheEnd()
    ensures AllKnown(GRAPH) && !HasRefCycle(GRAPH) && !NoFwd(GRAPH)
  {
    KnownKinds(GRAPH);
    NoCycles(GRAPH);
  }

  lemma KnownKinds(g: seq<BtfType>)
    requires g == GRAPH
    ensures AllKnown(g) && !NoFwd(g)
  {
    GraphIs(g);
    assert forall i :: 0 < i < |g| ==> KnownKind(g[i].info.kind);
    assert g[2].info.kind == FWD;
  }

  lemma NoCycles(g: seq<BtfType>)
    requires g == GRAPH
    ensures !HasRefCycle(g)
  {
    hide IsRef;
    GraphIs(g);
    PointersPoint(g);
    NoRefs(g);
    forall p ensures !RefCycle(g, p) {
    }
  }

  lemma NoRefs(g: seq<BtfType>)
    requires g == GRAPH
    ensures |g| == 11 && !IsRef(g[2].info.kind) && !IsRef(g[5].info.kind) && !IsRef(g[8].info.kind)
  {
    GraphIs(g);
  }

  lemma PointersPoint(g: seq<BtfType>)
    requires g == GRAPH
    ensures forall i: nat, x: nat :: Mentions(g, i, x) && IsRef(g[i].info.kind) ==> x == 2 || x == 5 || x == 8
  {
    GraphIs(g);
    forall i: nat, x: nat | Mentions(g, i, x) && IsRef(g[i].info.kind) ensures x == 2 || x == 5 || x == 8 {
      assert i == 3 || i == 6 || i == 9;
    }
  }
}
