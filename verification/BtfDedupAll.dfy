/** `btf__dedup`: all six passes over one BTF object. */
module BtfDedupAll {
  import opened Common
  import opened BtfTypes
  import opened CanonMap
  import opened EquivMeaning
  import opened DedupSpec
  import opened RefPass
  import opened OutputGraph
  import opened OneCopy
  import BtfStrings
  import FwdRun
  import Dedup

  lemma RenamingKeepsKinds(g: seq<BtfType>, g': seq<BtfType>, nu: map<nat, nat>)
    requires BtfStrings.RenamedGraph(g, g', nu)
    ensures AllKnown(g) == AllKnown(g') && HasRefCycle(g) == HasRefCycle(g') && NoFwd(g) == NoFwd(g')
  {
    assert forall i :: 0 <= i < |g| ==> g[i].info == g'[i].info && g[i].refs == g'[i].refs;
    forall p ensures RefCycle(g, p) <==> RefCycle(g', p) {
      assert forall i: nat, x: nat :: Mentions(g, i, x) <==> Mentions(g', i, x);
    }
  }

  /** Deduplicates strings and types.  `newId[i]` is the id of input type `i` in the output.
      Where no FWD is resolved, because the caller forbids it or there is none, the output
      means exactly what the input meant; and then it has no two types of one meaning exactly
      when FWDs are apart and no struct or union is blocked at its turn.  `mid` is the graph
      between the passes over strings and over types. */
  method BtfDedup(btf: BtfStrings.StringTable, noFwds: bool, tableSize: nat)
    returns (err: int, ghost newId: seq<nat>, ghost mid: seq<BtfType>, ghost turns: seq<Turn>)
    requires BtfStrings.WfSection(btf.data) && WfGraph(btf.types) && |btf.types| <= MAX_ID + 1
    modifies btf
    ensures err == if !BtfStrings.AllStarts(old(btf.data), old(btf.types), old(btf.ext))
                   || !AllKnown(old(btf.types)) then -EINVAL
                   else if HasRefCycle(old(btf.types)) then -ELOOP else 0
    ensures err == 0 ==> WfGraph(btf.types) && |btf.types| <= |old(btf.types)| && |btf.data| <= |old(btf.data)|
    ensures err == 0 ==> |newId| == |old(btf.types)| && InRange(newId, |btf.types|)
    ensures err == 0 && (noFwds || NoFwd(old(btf.types))) ==>
              forall i: nat, k: nat :: i < |newId| ==>
                Unfold(btf.data, btf.types, newId[i], k) == Unfold(old(btf.data), old(btf.types), i, k)
    ensures err == 0 ==> WfGraph(mid) && SameGraph(old(btf.data), old(btf.types), btf.data, mid)
    ensures err == 0 ==> PassThree(btf.data, noFwds, noFwds || NoFwd(mid), mid, turns) && Sizes(mid, turns)
    ensures err == 0 && (noFwds || NoFwd(old(btf.types))) ==>
              (NoCopies(btf.data, btf.types) <==> FwdsApart(btf.data, mid) && Unblocked(btf.data, mid, turns))
    ensures err == 0 && (noFwds || NoFwd(old(btf.types))) ==>
              FwdsApart(old(btf.data), old(btf.types)) && TwinFree(old(btf.data), old(btf.types)) ==>
                NoCopies(btf.data, btf.types)
  {
    hide NoCopies, FwdsApart, Unblocked, TwinFree, PassThree, Sizes, SameGraph, NamesApart;
    hide NoFwd, WfGraph, Unfold, AllKnown, HasRefCycle, BtfStrings.RenamedGraph, BtfStrings.AllStarts, IsOutput,
         Numbering;
    newId, mid, turns := [], [], [];
    ghost var nu;
    err, nu := btf.DedupStrings();
    if err < 0 {
      return;
    }
    RenamingKeepsKinds(old(btf.types), btf.types, nu);
    BtfStrings.RenamedSize(old(btf.types), btf.types, nu);
    mid := btf.types;
    RenamedIsSame(old(btf.data), old(btf.types), btf.data, mid, nu);
    SameGraphSameTwins(old(btf.data), old(btf.types), btf.data, mid);
    var d := new Dedup.BtfDedup(btf.data, btf.types, noFwds, tableSize);
    ghost var back;
    err, back, turns := d.Run();
    if err < 0 {
      return;
    }
    btf.types := d.types;
    OutputInRange(mid, d.root, d.hypot, back, d.types);
    OutputSmaller(mid, d.canon, d.root, d.hypot, back, d.types);
    newId := FinalIds(d.root, d.hypot);
  }

  /** Graphs that differ only in how names are stored. */
  ghost predicate SameGraph(strs: string, g: seq<BtfType>, strs': string, g': seq<BtfType>) {
    && WfGraph(g) && WfGraph(g') && |g| == |g'|
    && (forall i :: 0 <= i < |g| ==> g[i].info == g'[i].info && g[i].refs == g'[i].refs)
    && (forall i: nat, k: nat :: i < |g| ==> Unfold(strs', g', i, k) == Unfold(strs, g, i, k))
  }

  lemma RenamedIsSame(strs: string, g: seq<BtfType>, strs': string, g': seq<BtfType>, nu: map<nat, nat>)
    requires WfGraph(g) && WfGraph(g') && BtfStrings.RenamedGraph(g, g', nu)
    requires |g| == |g'| && forall i: nat, k: nat :: i < |g| ==> Unfold(strs', g', i, k) == Unfold(strs, g, i, k)
    ensures SameGraph(strs, g, strs', g')
  {
    hide Unfold, WfGraph;
  }

  lemma SameGraphSameTwins(strs: string, g: seq<BtfType>, strs': string, g': seq<BtfType>)
    requires SameGraph(strs, g, strs', g')
    ensures FwdsApart(strs, g) == FwdsApart(strs', g') && TwinFree(strs, g) == TwinFree(strs', g')
  {
    hide Unfold, WfGraph;
    forall x, y | 0 <= x < |g| && 0 <= y < |g| ensures Same(strs, g, x, y) == Same(strs', g', x, y) {
      SameGraphSame(strs, g, strs', g', x, y);
    }
    forall a, x | 0 <= a < |g| && 0 <= x < |g| ensures Reaches(g, a, x) == Reaches(g', a, x) {
      forall p ensures Descend(g, a, p) == Descend(g', a, p) {
        SameDescent(strs, g, strs', g', a, p);
      }
    }
    forall a, x, y | 0 <= a < |g| && 0 <= x < |g| && 0 <= y < |g|
      ensures TwinsBelow(strs, g, a, x, y) == TwinsBelow(strs', g', a, x, y)
    {
    }
  }

  lemma SameGraphSame(strs: string, g: seq<BtfType>, strs': string, g': seq<BtfType>, x: nat, y: nat)
    requires SameGraph(strs, g, strs', g') && x < |g| && y < |g|
    ensures Same(strs, g, x, y) == Same(strs', g', x, y)
  {
    hide Unfold, WfGraph;
    if Same(strs, g, x, y) {
      forall k: nat ensures Unfold(strs', g', x, k) == Unfold(strs', g', y, k) {
        assert Unfold(strs, g, x, k) == Unfold(strs, g, y, k);
      }
    }
    if Same(strs', g', x, y) {
      forall k: nat ensures Unfold(strs, g, x, k) == Unfold(strs, g, y, k) {
        assert Unfold(strs', g', x, k) == Unfold(strs', g', y, k);
      }
    }
  }

  lemma {:induction false} SameDescent(strs: string, g: seq<BtfType>, strs': string, g': seq<BtfType>, a: nat,
                                       p: seq<nat>)
    requires SameGraph(strs, g, strs', g') && a < |g|
    ensures Descend(g, a, p) == Descend(g', a, p)
    decreases |p|
  {
    hide Unfold, WfGraph;
    if p != [] {
      SameDescent(strs, g, strs', g', a, p[..|p| - 1]);
    }
  }

  ghost function FinalIds(root: seq<nat>, n: seq<nat>): (r: seq<nat>)
    requires InRange(root, |n|)
    ensures |r| == |root| && forall i :: 0 <= i < |r| ==> r[i] == n[root[i]]
  {
    seq(|root|, i requires 0 <= i < |root| => n[root[i]])
  }

  lemma OutputSmaller(g0: seq<BtfType>, m: seq<nat>, root: seq<nat>, n: seq<nat>, back: seq<nat>, out: seq<BtfType>)
    requires IsOutput(g0, root, n, back, out) && Numbering(m, n, back, |m|)
    ensures |out| <= |g0|
  {
    BackFits(m, n, back, |m|);
  }

  /** An input of which deduplication keeps two structs of one meaning, `k` and `l`. */
  method DedupTwins(strs: string, tableSize: nat) returns (out: seq<BtfType>, k: nat, l: nat)
    ensures WfGraph(out) && k < |out| && l < |out| && k != l && Same(strs, out, k, l)
  {
    hide WfGraph, Unfold, IsOutput, Numbering, NamesApart, NoCopies, FwdsApart, Unblocked, TwinFree, TurnsSoFar,
         RootsStay, Forest, LinksTyped, AllMapped;
    TwinsWf();
    TwinsAreSound();
    var d := new Dedup.BtfDedup(strs, TWINS, true, tableSize);
    ghost var back, turns;
    var err;
    err, back, turns := d.Run();
    TwinsStay(strs, turns);
    TwinsEnd(turns[6].m, turns[6].root, d.Ref());
    OutputInRange(TWINS, d.root, d.hypot, back, d.types);
    OutputWf(TWINS, d.root, d.hypot, back, d.types);
    TwinNumbers(d.canon, d.root, d.hypot, back, d.types);
    TwinsSame(strs, TWINS);
    out, k, l := d.types, d.hypot[3], d.hypot[6];
    forall j: nat ensures Unfold(strs, out, k, j) == Unfold(strs, out, l, j) {
      assert Unfold(strs, TWINS, 6, j) == Unfold(strs, TWINS, 3, j);
      assert Unfold(strs, out, d.hypot[d.root[3]], j) == Unfold(strs, TWINS, 3, j);
      assert Unfold(strs, out, d.hypot[d.root[6]], j) == Unfold(strs, TWINS, 6, j);
    }
  }

  lemma TwinsAreSound()
    ensures AllKnown(TWINS) && !HasRefCycle(TWINS)
  {
    forall i: nat, x: nat | Mentions(TWINS, i, x) && IsRef(TWINS[i].info.kind) ensures x == 1 {
    }
    forall p ensures !RefCycle(TWINS, p) {
    }
  }

  lemma TwinsEnd(m0: seq<nat>, root0: seq<nat>, s: RefState)
    requires RootsStay(m0, root0, s) && |m0| == |root0| == 7
    requires m0[3] == 3 && m0[6] == 6 && root0[3] == 3 && root0[6] == 6
    ensures |s.root| == 7 && s.root[3] == 3 && s.root[6] == 6
  {
  }

  lemma TwinNumbers(m: seq<nat>, root: seq<nat>, n: seq<nat>, back: seq<nat>, out: seq<BtfType>)
    requires IsOutput(TWINS, root, n, back, out) && |root| == 7 && root[3] == 3 && root[6] == 6
    ensures n[3] < |out| && n[6] < |out| && n[3] != n[6]
  {
    BackOf(TWINS, root, n, back, out, 3);
    BackOf(TWINS, root, n, back, out, 6);
  }

  /** A run with FWDs resolved in which a resolved FWD keeps two structs of one shape apart:
      `k` and `l` both are the struct x, one with a pointer to what the FWD stands for and one
      with a pointer to another struct of that name. */
  method DedupResolved(strs: string, tableSize: nat) returns (out: seq<BtfType>, k: nat, l: nat)
    ensures k < |out| && l < |out| && k != l && SameShape(out[k], out[l])
    ensures out[k].nameOff == out[l].nameOff == FwdRun.X && out[k].info.kind == out[l].info.kind == STRUCT
  {
    hide WfGraph, Unfold, IsOutput, Numbering, NamesApart, NoCopies, FwdsApart, Unblocked, TwinFree, TurnsSoFar,
         RootsStay, Forest, LinksTyped, AllMapped, NoFwd, FwdRun.MapAt, FwdRun.RootAt;
    FwdRun.GraphWf();
    FwdRun.RunsToTheEnd();
    var d := new Dedup.BtfDedup(strs, FwdRun.GRAPH, false, tableSize);
    ghost var back, turns;
    var err;
    err, back, turns := d.Run();
    FwdRun.StaysApart(strs, turns);
    HoldersEnd(turns[10].m, turns[10].root, d.Ref());
    OutputInRange(FwdRun.GRAPH, d.root, d.hypot, back, d.types);
    HolderNumbers(d.root, d.hypot, back, d.types);
    out, k, l := d.types, d.hypot[4], d.hypot[10];
  }

  lemma HoldersEnd(m0: seq<nat>, root0: seq<nat>, s: RefState)
    requires RootsStay(m0, root0, s) && FwdRun.MapAt(m0, 11) && FwdRun.RootAt(root0, 11)
    ensures |s.root| == 11 && s.root[4] == 4 && s.root[10] == 10
  {
  }

  lemma HolderNumbers(root: seq<nat>, n: seq<nat>, back: seq<nat>, out: seq<BtfType>)
    requires IsOutput(FwdRun.GRAPH, root, n, back, out) && |root| == 11 && root[4] == 4 && root[10] == 10
    ensures n[4] < |out| && n[10] < |out| && n[4] != n[10] && SameShape(out[n[4]], out[n[10]])
    ensures out[n[4]].nameOff == out[n[10]].nameOff == FwdRun.X
    ensures out[n[4]].info.kind == out[n[10]].info.kind == STRUCT
  {
    hide IsOutput;
    var g := FwdRun.GRAPH;
    OutputInRange(g, root, n, back, out);
    BackOf(g, root, n, back, out, 4);
    BackOf(g, root, n, back, out, 10);
    CopiedCanon(g, root, n, back, out, 4);
    CopiedCanon(g, root, n, back, out, 10);
    assert Shape(out[n[4]]) == Shape(g[4]) == Shape(g[10]) == Shape(out[n[10]]);
    assert Shape(out[n[4]]).nameOff == FwdRun.X && Shape(out[n[4]]).info.kind == STRUCT;
    assert Shape(out[n[10]]).nameOff == FwdRun.X && Shape(out[n[10]]).info.kind == STRUCT;
  }
}
