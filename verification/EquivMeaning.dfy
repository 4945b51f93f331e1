/** What the verdict of `btf_dedup_is_equiv` says about meaning, when FWDs play no part.

    A hypothetical map has one candidate for each canonical-side id.  So the check fails on
    two types that mean the same if its walk meets one canonical-side id opposite two
    different candidates; this module proves that nothing else makes it fail on them. */
module EquivMeaning {
  import opened Common
  import opened BtfTypes
  import opened CanonMap
  import opened HypotMap

  ghost predicate NoFwd(g: seq<BtfType>) {
    forall i :: 0 <= i < |g| ==> g[i].info.kind != FWD
  }

  /** Equal names have equal offsets, as pass 1 leaves them. */
  ghost predicate NamesApart(strs: string, g: seq<BtfType>) {
    forall i, j, o, p :: 0 <= i < |g| && 0 <= j < |g| && o in NameOffs(g[i]) && p in NameOffs(g[j]) ==>
      StrAt(strs, o) == StrAt(strs, p) ==> o == p
  }

  /** The setting of this module: a map that joins only what means the same. */
  ghost predicate Setting(strs: string, g: seq<BtfType>, root: seq<nat>) {
    WfGraph(g) && |g| == |root| && |g| <= MAX_ID + 1 && InRange(root, |g|) && Sound(strs, g, root)
  }

  datatype Meeting = Nowhere | At(x: nat, d: nat)

  /** Where the check gets from `a` and `c` by following the slots `path` in step, if it is
      not stopped before: it goes no further from two ids with one canonical id. */
  ghost function Follow(g: seq<BtfType>, root: seq<nat>, a: nat, c: nat, path: seq<nat>): (m: Meeting)
    requires WfGraph(g) && |g| == |root| && a < |g| && c < |g|
    ensures m.At? ==> m.x < |g| && m.d < |g| && root[m.x] != root[m.d]
    decreases |path|
  {
    if path == [] then if root[a] != root[c] then At(a, c) else Nowhere
    else
      var n := |path| - 1;
      var m := Follow(g, root, a, c, path[..n]);
      if m.At? && path[n] < |g[m.x].refs| && path[n] < |g[m.d].refs| then
        assert RefsBelow(g[m.x], |g|) && RefsBelow(g[m.d], |g|);
        var x, d := g[m.x].refs[path[n]], g[m.d].refs[path[n]];
        if root[x] != root[d] then At(x, d) else Nowhere
      else Nowhere
  }

  /** The walk meets one canonical-side id opposite two different candidates. */
  ghost predicate Clash(g: seq<BtfType>, root: seq<nat>, a: nat, c: nat)
    requires WfGraph(g) && |g| == |root| && a < |g| && c < |g|
  {
    exists p, q :: ClashAt(g, root, a, c, p, q)
  }

  ghost predicate ClashAt(g: seq<BtfType>, root: seq<nat>, a: nat, c: nat, p: seq<nat>, q: seq<nat>)
    requires WfGraph(g) && |g| == |root| && a < |g| && c < |g|
  {
    var m, n := Follow(g, root, a, c, p), Follow(g, root, a, c, q);
    m.At? && n.At? && m.d == n.d && m.x != n.x
  }

  /** The walk meets two FWDs whose type words, which the format leaves unused, differ. */
  ghost predicate OddFwds(g: seq<BtfType>, root: seq<nat>, a: nat, c: nat)
    requires WfGraph(g) && |g| == |root| && a < |g| && c < |g|
  {
    exists p :: OddFwdAt(g, root, a, c, p)
  }

  ghost predicate OddFwdAt(g: seq<BtfType>, root: seq<nat>, a: nat, c: nat, p: seq<nat>)
    requires WfGraph(g) && |g| == |root| && a < |g| && c < |g|
  {
    var m := Follow(g, root, a, c, p);
    m.At? && g[m.d].info.kind == FWD && g[m.x].refs != g[m.d].refs
  }

  // ----- what a bisimulation says about the walk -----

  lemma ResolvesToItself(strs: string, g: seq<BtfType>, root: seq<nat>, c: nat)
    requires Setting(strs, g, root) && c < |g|
    ensures ResolveFwd(g, root, c) == c
  {
    assert ChainSound(strs, g, root, c);
  }

  /** Every meeting of the walk is on record in a bisimulation that relates its start. */
  lemma {:induction false} MeetingsAreRecorded(strs: string, g: seq<BtfType>, root: seq<nat>, h: seq<nat>, a: nat,
                                               c: nat, path: seq<nat>)
    requires Setting(strs, g, root) && |h| == |g| && Bisimulation(true, g, root, h)
    requires a < |g| && c < |g| && Related(g, root, h, a, c)
    ensures var m := Follow(g, root, a, c, path);
            m.At? ==> h[m.d] == m.x && Recorded(h, m.d) && PairClosed(true, g, root, h, m.d)
    decreases |path|
  {
    hide Sound, WfGraph;
    if path == [] {
      ResolvesToItself(strs, g, root, c);
    } else {
      var n := |path| - 1;
      MeetingsAreRecorded(strs, g, root, h, a, c, path[..n]);
      var m, m' := Follow(g, root, a, c, path[..n]), Follow(g, root, a, c, path);
      if m'.At? {
        assert Related(g, root, h, g[m.x].refs[path[n]], g[m.d].refs[path[n]]);
        ResolvesToItself(strs, g, root, m'.d);
      }
    }
  }

  lemma RelatedIsSame(strs: string, g: seq<BtfType>, root: seq<nat>, h: seq<nat>, a: nat, c: nat)
    requires Setting(strs, g, root) && |h| == |g| && Bisimulation(true, g, root, h)
    requires a < |g| && c < |g| && Related(g, root, h, a, c)
    ensures Same(strs, g, a, c)
  {
    hide Sound, WfGraph, Unfold, Bisimulation;
    forall k: nat ensures Unfold(strs, g, a, k) == Unfold(strs, g, c, k) {
      RelatedAgree(strs, g, root, h, a, c, k);
    }
  }

  // ----- what meaning says about the walk -----

  /** Types that mean the same mention the same number of types, which mean the same in turn. */
  lemma SameChild(strs: string, g: seq<BtfType>, x: nat, d: nat, s: nat)
    requires WfGraph(g) && x < |g| && d < |g| && Same(strs, g, x, d)
    ensures |g[x].refs| == |g[d].refs| && LabelOf(strs, g[x]) == LabelOf(strs, g[d])
    ensures s < |g[x].refs| ==> g[x].refs[s] < |g| && g[d].refs[s] < |g| && Same(strs, g, g[x].refs[s], g[d].refs[s])
  {
    hide LabelOf, Unfold, WfType;
    NodeParts(strs, g, x, 0, s);
    NodeParts(strs, g, d, 0, s);
    assert Unfold(strs, g, x, 1) == Unfold(strs, g, d, 1);
    if s < |g[x].refs| {
      forall k: nat ensures Unfold(strs, g, g[x].refs[s], k) == Unfold(strs, g, g[d].refs[s], k) {
        NodeParts(strs, g, x, k, s);
        NodeParts(strs, g, d, k, s);
        assert Unfold(strs, g, x, k + 1) == Unfold(strs, g, d, k + 1);
      }
    }
  }

  lemma NodeParts(strs: string, g: seq<BtfType>, x: nat, k: nat, s: nat)
    requires WfGraph(g) && x < |g|
    ensures var t := Unfold(strs, g, x, k + 1);
            && t.Node? && t.tag == LabelOf(strs, g[x]) && |t.children| == |g[x].refs|
            && (s < |g[x].refs| ==> g[x].refs[s] < |g| && t.children[s] == Unfold(strs, g, g[x].refs[s], k))
  {
    assert RefsBelow(g[x], |g|);
  }

  lemma {:induction false} MeetingsMeanTheSame(strs: string, g: seq<BtfType>, root: seq<nat>, a: nat, c: nat,
                                               path: seq<nat>)
    requires WfGraph(g) && |g| == |root| && a < |g| && c < |g| && Same(strs, g, a, c)
    ensures var m := Follow(g, root, a, c, path); m.At? ==> Same(strs, g, m.x, m.d)
    decreases |path|
  {
    hide Same, WfGraph;
    if path != [] {
      var n := |path| - 1;
      MeetingsMeanTheSame(strs, g, root, a, c, path[..n]);
      var m := Follow(g, root, a, c, path[..n]);
      if m.At? {
        SameChild(strs, g, m.x, m.d, path[n]);
      }
    }
  }

  /** With names kept apart, types that mean the same have the same shape. */
  lemma SameIsShape(strs: string, g: seq<BtfType>, x: nat, d: nat)
    requires WfGraph(g) && NamesApart(strs, g) && x < |g| && d < |g| && Same(strs, g, x, d)
    ensures SameShape(g[x], g[d]) && g[x].nameOff == g[d].nameOff && g[x].info == g[d].info
  {
    hide Same, StrAt, WfGraph;
    SameChild(strs, g, x, d, 0);
    var t, u := g[x], g[d];
    var l, r := LabelOf(strs, t), LabelOf(strs, u);
    assert t.nameOff in NameOffs(t) && u.nameOff in NameOffs(u);
    assert |t.slotNames| == |l.slotNames| == |u.slotNames|;
    forall j | 0 <= j < |t.slotNames| ensures t.slotNames[j] == u.slotNames[j] {
      assert StrAt(strs, t.slotNames[j]) == l.slotNames[j] == r.slotNames[j] == StrAt(strs, u.slotNames[j]);
      assert t.slotNames[j] in NameOffs(t) && u.slotNames[j] in NameOffs(u);
    }
    assert t.slotNames == u.slotNames;
  }

  // ----- the map that the walk defines -----

  ghost predicate MeetsAt(g: seq<BtfType>, root: seq<nat>, a: nat, c: nat, d: nat, p: seq<nat>)
    requires WfGraph(g) && |g| == |root| && a < |g| && c < |g|
  {
    var m := Follow(g, root, a, c, p);
    m.At? && m.d == d
  }

  ghost function PairOf(g: seq<BtfType>, root: seq<nat>, a: nat, c: nat, d: nat): nat
    requires WfGraph(g) && |g| == |root| && a < |g| && c < |g|
  {
    if p :| MeetsAt(g, root, a, c, d, p) then Follow(g, root, a, c, p).x else UNPROCESSED
  }

  ghost function WalkMap(g: seq<BtfType>, root: seq<nat>, a: nat, c: nat): (h: seq<nat>)
    requires WfGraph(g) && |g| == |root| && a < |g| && c < |g|
    ensures |h| == |g| && forall d :: 0 <= d < |h| ==> h[d] == PairOf(g, root, a, c, d)
  {
    seq(|g|, d requires 0 <= d < |g| => PairOf(g, root, a, c, d))
  }

  /** Without a clash the map holds every meeting of the walk. */
  lemma WalkMapHas(g: seq<BtfType>, root: seq<nat>, a: nat, c: nat, p: seq<nat>)
    requires WfGraph(g) && |g| == |root| && a < |g| && c < |g| && !Clash(g, root, a, c)
    ensures var m := Follow(g, root, a, c, p); m.At? ==> PairOf(g, root, a, c, m.d) == m.x
  {
    hide Follow, WfGraph;
    var m := Follow(g, root, a, c, p);
    if m.At? {
      assert MeetsAt(g, root, a, c, m.d, p);
      var q :| MeetsAt(g, root, a, c, m.d, q) && PairOf(g, root, a, c, m.d) == Follow(g, root, a, c, q).x;
      assert !ClashAt(g, root, a, c, p, q);
    }
  }

  /** And each of its pairs is closed, because it means the same. */
  lemma WalkMapCloses(strs: string, g: seq<BtfType>, root: seq<nat>, a: nat, c: nat, d: nat)
    requires Setting(strs, g, root) && NamesApart(strs, g) && a < |g| && c < |g| && d < |g|
    requires Same(strs, g, a, c) && !Clash(g, root, a, c) && !OddFwds(g, root, a, c)
    requires Recorded(WalkMap(g, root, a, c), d)
    ensures PairClosed(true, g, root, WalkMap(g, root, a, c), d)
  {
    hide Same, WfGraph, NamesApart, Sound, Clash, StrAt;
    var h := WalkMap(g, root, a, c);
    var p :| MeetsAt(g, root, a, c, d, p) && h[d] == Follow(g, root, a, c, p).x;
    var x := h[d];
    MeetingsMeanTheSame(strs, g, root, a, c, p);
    SameIsShape(strs, g, x, d);
    assert !OddFwdAt(g, root, a, c, p);
    PrimsByShape(g, x, d);
    forall j | 0 <= j < |g[d].refs|
      ensures g[x].refs[j] < |g| && g[d].refs[j] < |g| && Related(g, root, h, g[x].refs[j], g[d].refs[j]) {
      WalkGoesOn(strs, g, root, a, c, p, j);
    }
  }

  lemma PrimsByShape(g: seq<BtfType>, x: nat, d: nat)
    requires WfGraph(g) && x < |g| && d < |g| && SameShape(g[x], g[d]) && g[x].info == g[d].info
    requires g[d].info.kind == FWD ==> g[x].refs == g[d].refs
    ensures IsPrim(g[d].info.kind) ==> g[x] == g[d]
  {
    assert Shape(g[x]) == Shape(g[d]);
  }

  lemma WalkGoesOn(strs: string, g: seq<BtfType>, root: seq<nat>, a: nat, c: nat, p: seq<nat>, j: nat)
    requires Setting(strs, g, root) && a < |g| && c < |g| && !Clash(g, root, a, c) && Follow(g, root, a, c, p).At?
    requires var m := Follow(g, root, a, c, p); j < |g[m.x].refs| == |g[m.d].refs|
    ensures var m := Follow(g, root, a, c, p);
            && g[m.x].refs[j] < |g| && g[m.d].refs[j] < |g|
            && Related(g, root, WalkMap(g, root, a, c), g[m.x].refs[j], g[m.d].refs[j])
  {
    hide Sound, Clash, WfGraph;
    var m, q := Follow(g, root, a, c, p), p + [j];
    assert q[..|p|] == p;
    RefsInRange(g, m.x, j);
    RefsInRange(g, m.d, j);
    WalkMapHas(g, root, a, c, q);
    ResolvesToItself(strs, g, root, g[m.d].refs[j]);
  }

  lemma RefsInRange(g: seq<BtfType>, i: nat, j: nat)
    requires WfGraph(g) && i < |g| && j < |g[i].refs|
    ensures g[i].refs[j] < |g|
  {
    assert RefsBelow(g[i], |g|);
  }

  // ----- the verdict -----

  lemma ModesAgree(noFwds: bool, g: seq<BtfType>, root: seq<nat>, h: seq<nat>)
    requires WfGraph(g) && |g| == |root| == |h| && InRange(root, |g|) && (noFwds || NoFwd(g))
    ensures Bisimulation(noFwds, g, root, h) == Bisimulation(true, g, root, h)
  {
    hide WfGraph, Related, SameShape;
    forall c | 0 <= c < |h| && Recorded(h, c)
      ensures PairClosed(noFwds, g, root, h, c) == PairClosed(true, g, root, h, c)
    {
    }
  }

  /** When no FWD is resolved, the check succeeds exactly on types that mean the same and
      whose walk does not meet one canonical-side id opposite two candidates (nor FWDs with
      different unused words). */
  lemma CheckDecidesMeaning(strs: string, noFwds: bool, g: seq<BtfType>, root: seq<nat>, a: nat, c: nat)
    requires Setting(strs, g, root) && NamesApart(strs, g) && (noFwds || NoFwd(g)) && a < |g| && c < |g|
    ensures !Distinguished(noFwds, g, root, a, c) <==>
            Same(strs, g, a, c) && !Clash(g, root, a, c) && !OddFwds(g, root, a, c)
  {
    hide Same, WfGraph, NamesApart, Sound, Bisimulation, Related, Follow, Clash, OddFwds;
    if !Distinguished(noFwds, g, root, a, c) {
      var h :| |h| == |g| && Bisimulation(noFwds, g, root, h) && Related(g, root, h, a, c);
      ModesAgree(noFwds, g, root, h);
      RelatedIsSame(strs, g, root, h, a, c);
      NoObstacle(strs, g, root, h, a, c);
    }
    if Same(strs, g, a, c) && !Clash(g, root, a, c) && !OddFwds(g, root, a, c) {
      WalkMapRelates(strs, g, root, a, c);
      ModesAgree(noFwds, g, root, WalkMap(g, root, a, c));
    }
  }

  lemma NoObstacle(strs: string, g: seq<BtfType>, root: seq<nat>, h: seq<nat>, a: nat, c: nat)
    requires Setting(strs, g, root) && |h| == |g| && Bisimulation(true, g, root, h)
    requires a < |g| && c < |g| && Related(g, root, h, a, c)
    ensures !Clash(g, root, a, c) && !OddFwds(g, root, a, c)
  {
    hide WfGraph, Sound, Bisimulation, Related, Follow;
    forall p, q ensures !ClashAt(g, root, a, c, p, q) {
      MeetingsAreRecorded(strs, g, root, h, a, c, p);
      MeetingsAreRecorded(strs, g, root, h, a, c, q);
    }
    forall p ensures !OddFwdAt(g, root, a, c, p) {
      MeetingsAreRecorded(strs, g, root, h, a, c, p);
    }
  }

  lemma WalkMapRelates(strs: string, g: seq<BtfType>, root: seq<nat>, a: nat, c: nat)
    requires Setting(strs, g, root) && NamesApart(strs, g) && a < |g| && c < |g|
    requires Same(strs, g, a, c) && !Clash(g, root, a, c) && !OddFwds(g, root, a, c)
    ensures Bisimulation(true, g, root, WalkMap(g, root, a, c)) && Related(g, root, WalkMap(g, root, a, c), a, c)
  {
    hide Same, WfGraph, NamesApart, Sound, Clash, OddFwds, PairClosed;
    var h := WalkMap(g, root, a, c);
    forall d | 0 <= d < |h| && Recorded(h, d) ensures PairClosed(true, g, root, h, d) {
      WalkMapCloses(strs, g, root, a, c, d);
    }
    WalkMapHas(g, root, a, c, []);
    ResolvesToItself(strs, g, root, c);
  }

  // ----- when meaning alone decides -----

  /** `x` is mentioned, directly or not, by `a`. */
  ghost predicate Reaches(g: seq<BtfType>, a: nat, x: nat)
    requires WfGraph(g) && a < |g|
  {
    exists path :: Descend(g, a, path) == Some(x)
  }

  ghost function Descend(g: seq<BtfType>, a: nat, path: seq<nat>): (r: Option<nat>)
    requires WfGraph(g) && a < |g|
    ensures r.Some? ==> r.value < |g|
    decreases |path|
  {
    if path == [] then Some(a)
    else
      var n := |path| - 1;
      var r := Descend(g, a, path[..n]);
      if r.Some? && path[n] < |g[r.value].refs| then
        assert RefsBelow(g[r.value], |g|);
        Some(g[r.value].refs[path[n]])
      else None
  }

  /** All that means what `x` means has one canonical id. */
  ghost predicate Settled(strs: string, g: seq<BtfType>, root: seq<nat>, x: nat)
    requires WfGraph(g) && |g| == |root| && x < |g|
  {
    forall d :: 0 <= d < |g| && Same(strs, g, x, d) ==> root[x] == root[d]
  }

  /** No two ids that `a` reaches mean the same, unless their canonical id is settled. */
  ghost predicate NoTwins(strs: string, g: seq<BtfType>, root: seq<nat>, a: nat)
    requires WfGraph(g) && |g| == |root| && a < |g|
  {
    forall x, y :: 0 <= x < |g| && 0 <= y < |g| && x != y &&
                   Reaches(g, a, x) && Reaches(g, a, y) && Same(strs, g, x, y) ==>
      Settled(strs, g, root, x)
  }

  lemma {:induction false} MeetingIsReached(g: seq<BtfType>, root: seq<nat>, a: nat, c: nat, path: seq<nat>)
    requires WfGraph(g) && |g| == |root| && a < |g| && c < |g|
    ensures var m := Follow(g, root, a, c, path); m.At? ==> Descend(g, a, path) == Some(m.x)
    decreases |path|
  {
    hide WfGraph;
    if path != [] {
      MeetingIsReached(g, root, a, c, path[..|path| - 1]);
    }
  }

  /** For a candidate without unsettled twins below it, and FWDs that leave their type word
      zero, the check decides meaning. */
  lemma CheckIsSame(strs: string, noFwds: bool, g: seq<BtfType>, root: seq<nat>, a: nat, c: nat)
    requires Setting(strs, g, root) && NamesApart(strs, g) && (noFwds || NoFwd(g)) && a < |g| && c < |g|
    requires NoTwins(strs, g, root, a) && forall i :: 0 <= i < |g| && g[i].info.kind == FWD ==> g[i].refs == [0]
    ensures !Distinguished(noFwds, g, root, a, c) <==> Same(strs, g, a, c)
  {
    hide WfGraph, NamesApart, Sound, Distinguished, Follow, Same, NoTwins;
    CheckDecidesMeaning(strs, noFwds, g, root, a, c);
    if Same(strs, g, a, c) {
      forall p, q ensures !ClashAt(g, root, a, c, p, q) {
        if ClashAt(g, root, a, c, p, q) {
          TwinsMeet(strs, g, root, a, c, p, q);
          assert false;
        }
      }
      forall p ensures !OddFwdAt(g, root, a, c, p) {
        var m := Follow(g, root, a, c, p);
        if m.At? {
          MeetingsMeanTheSame(strs, g, root, a, c, p);
          SameIsShape(strs, g, m.x, m.d);
        }
      }
    }
  }

  lemma TwinsMeet(strs: string, g: seq<BtfType>, root: seq<nat>, a: nat, c: nat, p: seq<nat>, q: seq<nat>)
    requires WfGraph(g) && |g| == |root| && a < |g| && c < |g| && Same(strs, g, a, c) && ClashAt(g, root, a, c, p, q)
    ensures !NoTwins(strs, g, root, a)
  {
    hide WfGraph, Unfold, Follow, Descend;
    var m, n := Follow(g, root, a, c, p), Follow(g, root, a, c, q);
    MeetingIsReached(g, root, a, c, p);
    MeetingIsReached(g, root, a, c, q);
    MeetingsMeanTheSame(strs, g, root, a, c, p);
    MeetingsMeanTheSame(strs, g, root, a, c, q);
    assert Reaches(g, a, m.x) && Reaches(g, a, n.x) && Same(strs, g, m.x, n.x);
    assert !Settled(strs, g, root, m.x);
  }

  // ----- a pair of twins -----

  function Pointer(to: nat): BtfType {
    BtfType(0, Info(PTR, 0, false, 0), 0, [], [], [to])
  }

  function TwoMembers(x: nat, y: nat): BtfType {
    BtfType(0, Info(STRUCT, 2, false, 0), 16, [0, 0], [0, 64], [x, y])
  }

  /** Struct 3 has two members of one pointer type, struct 6 has members of two equal ones. */
  const TWINS: seq<BtfType> := [VOID, BtfType(0, Info(INT, 0, false, 0), 4, [], [32], []),
                                Pointer(1), TwoMembers(2, 2), Pointer(1), Pointer(1), TwoMembers(4, 5)]

  /** The check fails on types that mean the same: the pointer of struct 3 stands opposite
      both pointers of struct 6. */
  lemma TwinsAreToldApart(strs: string)
    ensures Setting(strs, TWINS, [0, 1, 2, 3, 4, 5, 6]) && NamesApart(strs, TWINS)
    ensures Same(strs, TWINS, 6, 3) && Distinguished(true, TWINS, [0, 1, 2, 3, 4, 5, 6], 6, 3)
  {
    hide WfGraph, Sound, Same, Distinguished, NamesApart, Clash, OddFwds;
    var g, root := TWINS, [0, 1, 2, 3, 4, 5, 6];
    TwinsWf();
    TwinNames(strs, g);
    IdentityIsSound(strs, g, root);
    TwinsSame(strs, g);
    TwinsClash(g, root);
    CheckDecidesMeaning(strs, true, g, root, 6, 3);
  }

  lemma TwinNames(strs: string, g: seq<BtfType>)
    requires forall i, o :: 0 <= i < |g| && o in NameOffs(g[i]) ==> o == 0
    ensures NamesApart(strs, g)
  {
  }

  lemma IdentityIsSound(strs: string, g: seq<BtfType>, root: seq<nat>)
    requires WfGraph(g) && |root| == |g| && forall i :: 0 <= i < |g| ==> root[i] == i
    ensures Sound(strs, g, root)
  {
    hide Unfold;
    forall i | 0 <= i < |g| ensures ChainSound(strs, g, root, i) {
    }
  }

  lemma TwinsSame(strs: string, g: seq<BtfType>)
    requires g == TWINS && WfGraph(g)
    ensures Same(strs, g, 6, 3)
  {
    hide WfGraph, Unfold;
    SameByChildren(strs, g, 4, 2);
    SameByChildren(strs, g, 5, 2);
    SameByChildren(strs, g, 6, 3);
  }

  lemma TwinsWf()
    ensures WfGraph(TWINS) && forall i, o :: 0 <= i < |TWINS| && o in NameOffs(TWINS[i]) ==> o == 0
  {
    forall i | 0 <= i < |TWINS| ensures WfType(TWINS[i]) && RefsBelow(TWINS[i], |TWINS|) {
    }
  }

  lemma TwinsClash(g: seq<BtfType>, root: seq<nat>)
    requires g == TWINS && root == [0, 1, 2, 3, 4, 5, 6] && WfGraph(g)
    ensures Clash(g, root, 6, 3)
  {
    assert Follow(g, root, 6, 3, []) == At(6, 3);
    assert [0][..0] == [] && [1][..0] == [];
    assert Follow(g, root, 6, 3, [0]) == At(4, 2) && Follow(g, root, 6, 3, [1]) == At(5, 2);
    assert ClashAt(g, root, 6, 3, [0], [1]);
  }

  function Forward(to: nat): BtfType {
    BtfType(0, Info(FWD, 0, false, 0), 0, [], [], [to])
  }

  function OneMember(x: nat): BtfType {
    BtfType(0, Info(STRUCT, 1, false, 0), 8, [0], [0], [x])
  }

  /** Two structs, each with one forward declaration; the type words of the declarations name
      two equal types. */
  const ODD: seq<BtfType> := [VOID, BtfType(0, Info(INT, 0, false, 0), 4, [], [32], []),
                              BtfType(0, Info(INT, 0, false, 0), 4, [], [32], []),
                              Forward(1), Forward(2), OneMember(3), OneMember(4)]

  /** The other way to fail on types that mean the same: type words that the format leaves
      unused differ. */
  lemma OddFwdsAreToldApart(strs: string)
    ensures Setting(strs, ODD, [0, 1, 1, 3, 4, 5, 6]) && NamesApart(strs, ODD)
    ensures Same(strs, ODD, 6, 5) && !Clash(ODD, [0, 1, 1, 3, 4, 5, 6], 6, 5)
    ensures Distinguished(true, ODD, [0, 1, 1, 3, 4, 5, 6], 6, 5)
  {
    hide WfGraph, Sound, Same, Distinguished, NamesApart, Clash, OddFwds;
    var g, root := ODD, [0, 1, 1, 3, 4, 5, 6];
    OddWf();
    TwinNames(strs, g);
    OddSame(strs, g);
    OddIsSound(strs, g, root);
    OddMeets(strs, g, root);
    CheckDecidesMeaning(strs, true, g, root, 6, 5);
  }

  lemma OddWf()
    ensures WfGraph(ODD) && forall i, o :: 0 <= i < |ODD| && o in NameOffs(ODD[i]) ==> o == 0
  {
    forall i | 0 <= i < |ODD| ensures WfType(ODD[i]) && RefsBelow(ODD[i], |ODD|) {
    }
  }

  lemma OddSame(strs: string, g: seq<BtfType>)
    requires g == ODD && WfGraph(g)
    ensures Same(strs, g, 2, 1) && Same(strs, g, 6, 5)
  {
    hide WfGraph, Unfold;
    SameByChildren(strs, g, 2, 1);
    SameByChildren(strs, g, 4, 3);
    SameByChildren(strs, g, 6, 5);
  }

  lemma OddIsSound(strs: string, g: seq<BtfType>, root: seq<nat>)
    requires g == ODD && WfGraph(g) && root == [0, 1, 1, 3, 4, 5, 6] && Same(strs, g, 2, 1)
    ensures Sound(strs, g, root)
  {
    hide WfGraph, Unfold;
    forall i | 0 <= i < |g| ensures ChainSound(strs, g, root, i) {
    }
  }

  /** The walk meets the structs and then the declarations, and nothing else. */
  lemma OddMeets(strs: string, g: seq<BtfType>, root: seq<nat>)
    requires g == ODD && WfGraph(g) && root == [0, 1, 1, 3, 4, 5, 6]
    ensures OddFwds(g, root, 6, 5) && !Clash(g, root, 6, 5)
  {
    assert Follow(g, root, 6, 5, []) == At(6, 5);
    assert [0][..0] == [];
    assert Follow(g, root, 6, 5, [0]) == At(4, 3);
    assert OddFwdAt(g, root, 6, 5, [0]);
    forall p, q ensures !ClashAt(g, root, 6, 5, p, q) {
      OddWalk(g, root, p);
      OddWalk(g, root, q);
    }
  }

  lemma {:induction false} OddWalk(g: seq<BtfType>, root: seq<nat>, p: seq<nat>)
    requires g == ODD && WfGraph(g) && root == [0, 1, 1, 3, 4, 5, 6]
    ensures Follow(g, root, 6, 5, p) in {At(6, 5), At(4, 3), Nowhere}
    decreases |p|
  {
    if p != [] {
      OddWalk(g, root, p[..|p| - 1]);
    }
  }
}
