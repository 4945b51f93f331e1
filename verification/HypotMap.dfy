/** The hypothetical map of a type-graph equivalence check, as a value: `h[c]` is the
    candidate id that canonical-side id `c` has been paired with, if any. */
module HypotMap {
  import opened BtfTypes
  import opened CanonMap

  predicate Recorded(h: seq<nat>, c: nat)
    requires c < |h|
  {
    h[c] <= MAX_ID
  }

  /** `resolve_fwd_id`: a FWD that already stands for a struct or union is replaced by it. */
  function ResolveFwd(g: seq<BtfType>, root: seq<nat>, c: nat): (r: nat)
    requires |g| == |root| && c < |g| && root[c] < |g|
    ensures r < |g|
  {
    if g[c].info.kind == FWD && g[root[c]].info.kind != FWD then root[c] else c
  }

  /** The check has established, or assumes, that candidate id `a` equals canonical id `c`. */
  predicate Related(g: seq<BtfType>, root: seq<nat>, h: seq<nat>, a: nat, c: nat)
    requires |g| == |root| == |h| && a < |g| && c < |g| && root[c] < |g|
  {
    root[a] == root[c] || h[ResolveFwd(g, root, c)] == a
  }

  /** A FWD that stands for a struct or union is looked up as what it stands for, anything
      else as itself. */
  lemma RelatedIff(g: seq<BtfType>, root: seq<nat>, h: seq<nat>, a: nat, c: nat)
    requires |g| == |root| == |h| && a < |g| && c < |g| && root[c] < |g|
    ensures g[c].info.kind == FWD && g[root[c]].info.kind != FWD ==>
              (Related(g, root, h, a, c) <==> root[a] == root[c] || h[root[c]] == a)
    ensures g[c].info.kind != FWD || g[root[c]].info.kind == FWD ==>
              (Related(g, root, h, a, c) <==> root[a] == root[c] || h[c] == a)
  {
  }

  /** A forward declaration opposite the struct or union it declares. */
  predicate FwdPair(a: BtfType, c: BtfType) {
    && (a.info.kind == FWD || c.info.kind == FWD)
    && a.info.kind != c.info.kind
    && DeclaredKind(a) == DeclaredKind(c)
  }

  /** The pair recorded for `c` matches locally and its children are related. */
  predicate PairClosed(noFwds: bool, g: seq<BtfType>, root: seq<nat>, h: seq<nat>, c: nat)
    requires WfGraph(g) && |g| == |root| == |h| && c < |h|
    requires InRange(root, |g|)
  {
    && h[c] < |g|
    && var a, b := g[h[c]], g[c];
    && a.nameOff == b.nameOff
    && ((!noFwds && FwdPair(a, b))
        || (SameShape(a, b) && (IsPrim(b.info.kind) ==> a == b)
            && forall j :: 0 <= j < |b.refs| ==> Related(g, root, h, a.refs[j], b.refs[j])))
  }

  /** Pairs are only ever added. */
  predicate Extends(h: seq<nat>, h': seq<nat>) {
    |h| == |h'| && forall c :: 0 <= c < |h| && Recorded(h, c) ==> h'[c] == h[c]
  }

  /** All the pairs recorded in `h` but not in `h0` are closed, except perhaps that of `open`. */
  predicate NewPairsClosed(noFwds: bool, g: seq<BtfType>, root: seq<nat>, h0: seq<nat>, h: seq<nat>, open: int)
    requires WfGraph(g) && |g| == |root| == |h| == |h0|
    requires InRange(root, |g|)
  {
    forall c :: 0 <= c < |h| && Recorded(h, c) && !Recorded(h0, c) && c != open ==> PairClosed(noFwds, g, root, h, c)
  }

  lemma NewPairsCompose(noFwds: bool, g: seq<BtfType>, root: seq<nat>, h0: seq<nat>, h1: seq<nat>, h2: seq<nat>,
                        open: int)
    requires WfGraph(g) && |g| == |root| == |h0| == |h1| == |h2| && |g| <= MAX_ID + 1
    requires InRange(root, |g|)
    requires Extends(h1, h2)
    requires NewPairsClosed(noFwds, g, root, h0, h1, open) && NewPairsClosed(noFwds, g, root, h1, h2, -1)
    ensures NewPairsClosed(noFwds, g, root, h0, h2, open)
  {
  }

  // ----- the check finds a way to relate two types whenever there is one -----

  /** `h` adds only closed pairs to `h0`. */
  ghost predicate Solves(noFwds: bool, g: seq<BtfType>, root: seq<nat>, h0: seq<nat>, h: seq<nat>)
    requires WfGraph(g) && |g| == |root| == |h0| && InRange(root, |g|)
  {
    |h| == |h0| && Extends(h0, h) && NewPairsClosed(noFwds, g, root, h0, h, -1)
  }

  /** Every way to relate `a` to `c` contains the pairs of `h`. */
  ghost predicate Forced(noFwds: bool, g: seq<BtfType>, root: seq<nat>, h0: seq<nat>, h: seq<nat>, a: nat, c: nat)
    requires WfGraph(g) && |g| == |root| == |h0| && InRange(root, |g|) && a < |g| && c < |g|
  {
    forall s :: Solves(noFwds, g, root, h0, s) && Related(g, root, s, a, c) ==> Extends(h, s)
  }

  /** There is no way to relate `a` to `c`. */
  ghost predicate Hopeless(noFwds: bool, g: seq<BtfType>, root: seq<nat>, h0: seq<nat>, a: nat, c: nat)
    requires WfGraph(g) && |g| == |root| == |h0| && InRange(root, |g|) && a < |g| && c < |g|
  {
    forall s :: Solves(noFwds, g, root, h0, s) ==> !Related(g, root, s, a, c)
  }

  /** Every way to pair `a` with `c` contains the pairs of `h`. */
  ghost predicate ForcedPair(noFwds: bool, g: seq<BtfType>, root: seq<nat>, h0: seq<nat>, h: seq<nat>, a: nat, c: nat)
    requires WfGraph(g) && |g| == |root| == |h0| && InRange(root, |g|) && a < |g| && c < |g|
  {
    forall s :: Solves(noFwds, g, root, h0, s) && s[c] == a ==> Extends(h, s)
  }

  ghost predicate HopelessPair(noFwds: bool, g: seq<BtfType>, root: seq<nat>, h0: seq<nat>, a: nat, c: nat)
    requires WfGraph(g) && |g| == |root| == |h0| && InRange(root, |g|) && a < |g| && c < |g|
  {
    forall s :: Solves(noFwds, g, root, h0, s) ==> s[c] != a
  }

  /** No hypothetical map with closed pairs relates `a` to `c`.  Such a map has one candidate
      for each canonical-side id. */
  ghost predicate Distinguished(noFwds: bool, g: seq<BtfType>, root: seq<nat>, a: nat, c: nat)
    requires WfGraph(g) && |g| == |root| && InRange(root, |g|) && a < |g| && c < |g|
  {
    forall h :: |h| == |g| && Bisimulation(noFwds, g, root, h) ==> !Related(g, root, h, a, c)
  }

  /** A pair on record decides; without one the question is what the new pair leads to. */
  lemma RelatedByPair(noFwds: bool, g: seq<BtfType>, root: seq<nat>, h0: seq<nat>, h: seq<nat>, a: nat, c: nat)
    requires WfGraph(g) && |g| == |root| == |h0| && InRange(root, |g|) && a < |g| && c < |g|
    ensures Forced(noFwds, g, root, h0, h0, a, c)
    ensures root[a] != root[c] ==>
              var r := ResolveFwd(g, root, c);
              && (Recorded(h0, r) && h0[r] != a ==> Hopeless(noFwds, g, root, h0, a, c))
              && (ForcedPair(noFwds, g, root, h0, h, a, r) ==> Forced(noFwds, g, root, h0, h, a, c))
              && (HopelessPair(noFwds, g, root, h0, a, r) ==> Hopeless(noFwds, g, root, h0, a, c))
  {
  }

  lemma ForcedRecorded(noFwds: bool, g: seq<BtfType>, root: seq<nat>, h0: seq<nat>, a: nat, c: nat)
    requires WfGraph(g) && |g| == |root| == |h0| && InRange(root, |g|) && a < |g| && c < |g|
    ensures ForcedPair(noFwds, g, root, h0, h0[c := a], a, c)
  {
  }

  /** Whoever pairs `a` with `c` must relate what they mention. */
  lemma SolvesChild(noFwds: bool, g: seq<BtfType>, root: seq<nat>, h0: seq<nat>, h1: seq<nat>, s: seq<nat>, a: nat,
                    c: nat, j: nat)
    requires WfGraph(g) && |g| == |root| == |h0| == |h1| && InRange(root, |g|) && |g| <= MAX_ID + 1 && a < |g|
    requires c < |g|
    requires SameShape(g[a], g[c]) && j < |g[c].refs| && !Recorded(h0, c) && Extends(h0[c := a], h1)
    requires Solves(noFwds, g, root, h0, s) && s[c] == a && Extends(h1, s)
    ensures g[a].refs[j] < |g| && g[c].refs[j] < |g|
    ensures Solves(noFwds, g, root, h1, s) && Related(g, root, s, g[a].refs[j], g[c].refs[j])
  {
  }

  /** So a child that cannot be related settles the pair, and what a child forces, the pair forces. */
  lemma ChildDecides(noFwds: bool, g: seq<BtfType>, root: seq<nat>, h0: seq<nat>, h1: seq<nat>, h2: seq<nat>, a: nat,
                     c: nat, j: nat)
    requires WfGraph(g) && |g| == |root| == |h0| == |h1| && InRange(root, |g|) && |g| <= MAX_ID + 1 && a < |g|
    requires c < |g|
    requires SameShape(g[a], g[c]) && j < |g[c].refs| && !Recorded(h0, c) && Extends(h0[c := a], h1)
    requires ForcedPair(noFwds, g, root, h0, h1, a, c) && g[a].refs[j] < |g| && g[c].refs[j] < |g|
    ensures Forced(noFwds, g, root, h1, h2, g[a].refs[j], g[c].refs[j]) ==> ForcedPair(noFwds, g, root, h0, h2, a, c)
    ensures Hopeless(noFwds, g, root, h1, g[a].refs[j], g[c].refs[j]) ==> HopelessPair(noFwds, g, root, h0, a, c)
  {
    hide WfGraph, Related;
    forall s | Solves(noFwds, g, root, h0, s) && s[c] == a
      ensures Solves(noFwds, g, root, h1, s) && Related(g, root, s, g[a].refs[j], g[c].refs[j])
    {
      SolvesChild(noFwds, g, root, h0, h1, s, a, c, j);
    }
  }

  /** Every map that relates `a` to `c` contains `h`. */
  ghost predicate Least(noFwds: bool, g: seq<BtfType>, root: seq<nat>, h: seq<nat>, a: nat, c: nat)
    requires WfGraph(g) && |g| == |root| && InRange(root, |g|) && a < |g| && c < |g|
  {
    forall s :: |s| == |g| && Bisimulation(noFwds, g, root, s) && Related(g, root, s, a, c) ==> Extends(h, s)
  }

  lemma ForcedIsLeast(noFwds: bool, g: seq<BtfType>, root: seq<nat>, h0: seq<nat>, h: seq<nat>, a: nat, c: nat)
    requires WfGraph(g) && |g| == |root| == |h0| == |h| && InRange(root, |g|) && a < |g| && c < |g|
    requires forall x :: 0 <= x < |h0| ==> !Recorded(h0, x)
    requires Forced(noFwds, g, root, h0, h, a, c) && NewPairsClosed(noFwds, g, root, h0, h, -1)
    ensures Least(noFwds, g, root, h, a, c) && Bisimulation(noFwds, g, root, h)
  {
    hide WfGraph, Related, PairClosed;
    forall s | |s| == |g| && Bisimulation(noFwds, g, root, s) ensures Solves(noFwds, g, root, h0, s) {
    }
  }

  /** From an empty map the check succeeds exactly when some hypothetical map with closed
      pairs, one candidate for each canonical-side id, relates the two types. */
  lemma VerdictIsExact(noFwds: bool, g: seq<BtfType>, root: seq<nat>, h0: seq<nat>, h: seq<nat>, a: nat, c: nat)
    requires WfGraph(g) && |g| == |root| == |h0| == |h| && InRange(root, |g|) && a < |g| && c < |g|
    requires forall x :: 0 <= x < |h0| ==> !Recorded(h0, x)
    ensures Hopeless(noFwds, g, root, h0, a, c) ==> Distinguished(noFwds, g, root, a, c)
    ensures NewPairsClosed(noFwds, g, root, h0, h, -1) && Related(g, root, h, a, c) ==>
              !Distinguished(noFwds, g, root, a, c)
  {
  }

  /** The ids still without a pair: this set shrinks with every pair added. */
  ghost function Unrecorded(h: seq<nat>): set<nat> {
    set c: nat | c < |h| && !Recorded(h, c)
  }

  lemma UnrecordedShrinks(h: seq<nat>, h': seq<nat>, c: nat)
    requires Extends(h, h')
    ensures Unrecorded(h') <= Unrecorded(h)
    ensures c < |h| && !Recorded(h, c) && Recorded(h', c) ==> Unrecorded(h') < Unrecorded(h)
  {
    assert c < |h| && !Recorded(h, c) && Recorded(h', c) ==> c in Unrecorded(h) && c !in Unrecorded(h');
  }

  /** `l` lists the recorded ids, each once. */
  predicate ListsRecorded(h: seq<nat>, l: seq<nat>) {
    && (forall i :: 0 <= i < |l| ==> l[i] < |h| && Recorded(h, l[i]))
    && (forall i, j :: 0 <= i < j < |l| ==> l[i] != l[j])
    && (forall c :: 0 <= c < |h| && Recorded(h, c) ==> c in l)
  }

  /** A hypothetical map all of whose pairs are closed.  Read as a relation it is a bisimulation
      up to the canonical map, of the special form that pairs each canonical-side id with one
      candidate at most. */
  predicate Bisimulation(noFwds: bool, g: seq<BtfType>, root: seq<nat>, h: seq<nat>)
    requires WfGraph(g) && |g| == |root| == |h|
    requires InRange(root, |g|)
  {
    forall c :: 0 <= c < |h| && Recorded(h, c) ==> PairClosed(noFwds, g, root, h, c)
  }

  /** Without FWD resolution every recorded pair of a bisimulation means the same. */
  lemma PairsMeanTheSame(strs: string, g: seq<BtfType>, root: seq<nat>, h: seq<nat>, c: nat)
    requires WfGraph(g) && |g| == |root| == |h| && |g| <= MAX_ID + 1
    requires InRange(root, |g|) && Sound(strs, g, root) && Bisimulation(true, g, root, h)
    requires c < |h| && Recorded(h, c)
    ensures h[c] < |g| && g[c].info.kind == g[h[c]].info.kind && Same(strs, g, c, h[c])
  {
    assert PairClosed(true, g, root, h, c);
    assert g[c].info == Shape(g[c]).info == Shape(g[h[c]]).info;
    forall k: nat ensures Unfold(strs, g, c, k) == Unfold(strs, g, h[c], k) {
      PairsAgree(strs, g, root, h, c, k);
    }
  }

  lemma {:induction false} PairsAgree(strs: string, g: seq<BtfType>, root: seq<nat>, h: seq<nat>, c: nat, k: nat)
    requires WfGraph(g) && |g| == |root| == |h| && |g| <= MAX_ID + 1
    requires InRange(root, |g|) && Sound(strs, g, root) && Bisimulation(true, g, root, h)
    requires c < |h| && Recorded(h, c)
    ensures h[c] < |g| && Unfold(strs, g, c, k) == Unfold(strs, g, h[c], k)
    decreases k, 0
  {
    hide Unfold, WfType, Sound, ResolveFwd;
    assert PairClosed(true, g, root, h, c);
    if k == 0 {
      UnfoldZero(strs, g, c, strs, g, h[c]);
    } else {
      var a, b := g[h[c]], g[c];
      assert RefsBelow(a, |g|) && RefsBelow(b, |g|);
      forall j | 0 <= j < |b.refs|
        ensures Unfold(strs, g, a.refs[j], k - 1) == Unfold(strs, g, b.refs[j], k - 1)
      {
        RelatedAgree(strs, g, root, h, a.refs[j], b.refs[j], k - 1);
      }
      SameLabel(strs, a, b);
      UnfoldNode(strs, g, c, strs, g, h[c], k);
    }
  }

  lemma {:induction false} RelatedAgree(strs: string, g: seq<BtfType>, root: seq<nat>, h: seq<nat>, a: nat, c: nat,
                                        k: nat)
    requires WfGraph(g) && |g| == |root| == |h| && |g| <= MAX_ID + 1
    requires InRange(root, |g|) && Sound(strs, g, root) && Bisimulation(true, g, root, h)
    requires a < |g| && c < |g| && Related(g, root, h, a, c)
    ensures Unfold(strs, g, a, k) == Unfold(strs, g, c, k)
    decreases k, 1
  {
    assert ChainSound(strs, g, root, a) && ChainSound(strs, g, root, c);
    if root[a] == root[c] {
      assert Unfold(strs, g, a, k) == Unfold(strs, g, root[a], k);
    } else {
      assert ResolveFwd(g, root, c) == c;
      PairsAgree(strs, g, root, h, c, k);
    }
  }

  /** In both modes a recorded pair has one name offset and one declared kind. */
  lemma PairsTyped(noFwds: bool, g: seq<BtfType>, root: seq<nat>, h: seq<nat>, c: nat)
    requires WfGraph(g) && |g| == |root| == |h|
    requires InRange(root, |g|)
    requires Bisimulation(noFwds, g, root, h)
    requires c < |h| && Recorded(h, c)
    ensures h[c] < |g| && g[c].nameOff == g[h[c]].nameOff && DeclaredKind(g[c]) == DeclaredKind(g[h[c]])
  {
  }
}
