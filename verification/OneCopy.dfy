/** When deduplication leaves one copy of everything: where no FWD is resolved, exactly which
    runs end in a graph no two types of which mean the same. */
module OneCopy {
  import opened BtfTypes
  import opened CanonMap
  import opened HypotMap
  import opened EquivMeaning
  import opened DedupSpec
  import opened RefPass
  import opened OutputGraph

  /** No two ids mean the same. */
  ghost predicate NoCopies(strs: string, g: seq<BtfType>)
    requires WfGraph(g)
  {
    forall i, j :: 0 <= i < |g| && 0 <= j < |g| && Same(strs, g, i, j) ==> i == j
  }

  /** Mapped types that mean the same have one canonical id. */
  ghost predicate OneEach(strs: string, g: seq<BtfType>, m: seq<nat>, root: seq<nat>)
    requires WfGraph(g) && |g| == |m| == |root|
  {
    forall x, y :: 0 <= x < |g| && 0 <= y < |g| && Mapped(m, x) && Mapped(m, y) && Same(strs, g, x, y) ==>
      root[x] == root[y]
  }

  /** FWDs that mean the same do not differ in the type word, which the format leaves unused. */
  ghost predicate FwdsApart(strs: string, g: seq<BtfType>)
    requires WfGraph(g)
  {
    forall i, j :: 0 <= i < |g| && 0 <= j < |g| && g[i].info.kind == FWD && Same(strs, g, i, j) ==>
      g[i].refs == g[j].refs
  }

  /** When the turn of `id` comes, a canonical type means the same, and the check against it
      meets one canonical-side id opposite two candidates. */
  ghost predicate Blocked(strs: string, g: seq<BtfType>, t: Turn, id: nat)
    requires WfGraph(g) && |g| == |t.m| == |t.root| && id < |g|
  {
    && IsComposite(g[id].info.kind) && !Mapped(t.m, id)
    && exists x :: 0 <= x < |g| && BlockedBy(strs, g, t, id, x)
  }

  ghost predicate BlockedBy(strs: string, g: seq<BtfType>, t: Turn, id: nat, x: nat)
    requires WfGraph(g) && |g| == |t.m| == |t.root| && id < |g| && x < |g|
  {
    t.m[x] == x && Same(strs, g, id, x) && Clash(g, t.root, id, x)
  }

  /** No struct or union is blocked at its turn. */
  ghost predicate Unblocked(strs: string, g: seq<BtfType>, turns: seq<Turn>)
    requires WfGraph(g) && |turns| == |g|
    requires forall k :: 0 <= k < |turns| ==> |turns[k].m| == |turns[k].root| == |g|
  {
    forall i :: 0 < i < |g| ==> !BlockedAt(strs, g, turns, i)
  }

  ghost predicate BlockedAt(strs: string, g: seq<BtfType>, turns: seq<Turn>, i: nat)
    requires WfGraph(g) && |turns| == |g| && 0 < i < |g|
    requires forall k :: 0 <= k < |turns| ==> |turns[k].m| == |turns[k].root| == |g|
  {
    Blocked(strs, g, turns[i - 1], i)
  }

  // ----- meaning as an equivalence -----

  lemma SameSym(strs: string, g: seq<BtfType>, a: nat, b: nat)
    requires WfGraph(g) && a < |g| && b < |g| && Same(strs, g, a, b)
    ensures Same(strs, g, b, a)
  {
    hide Unfold, WfGraph;
    forall k: nat ensures Unfold(strs, g, b, k) == Unfold(strs, g, a, k) {
      assert Unfold(strs, g, a, k) == Unfold(strs, g, b, k);
    }
  }

  /** The ends of two chains mean the same if their starts do. */
  lemma SameEnds(strs: string, g: seq<BtfType>, root: seq<nat>, x: nat, y: nat)
    requires WfGraph(g) && Sound(strs, g, root) && x < |g| && y < |g| && Same(strs, g, x, y)
    ensures root[x] < |g| && root[y] < |g| && Same(strs, g, x, root[x]) && Same(strs, g, x, root[y])
    ensures Same(strs, g, root[x], root[y])
  {
    hide Same, WfGraph;
    assert ChainSound(strs, g, root, x) && ChainSound(strs, g, root, y);
    SameTransitive(strs, g, x, y, root[y]);
    SameSym(strs, g, x, root[x]);
    SameTransitive(strs, g, root[x], x, root[y]);
  }

  lemma TurnFacts(strs: string, g: seq<BtfType>, t: Turn)
    requires TurnOk(strs, true, g, t)
    ensures Setting(strs, g, t.root) && |g| == |t.m| == |t.root| == |t.dist| && EndsMapped(t.m, t.root)
    ensures Forest(t.m, t.root, t.dist)
    ensures forall x :: 0 <= x < |g| && (t.m[x] == x || !Mapped(t.m, x)) ==> t.root[x] == x
  {
    hide Sound, WfGraph, TableOk;
    forall x | 0 <= x < |g| && (t.m[x] == x || !Mapped(t.m, x)) ensures t.root[x] == x {
      assert ChainEnds(t.m, t.root, t.dist, x);
    }
  }

  // ----- one turn -----

  /** Linking makes no copies: whatever is newly mapped resolves to something canonical before. */
  lemma LinksKeepOneEach(strs: string, g: seq<BtfType>, t: Turn, t': Turn)
    requires TurnOk(strs, true, g, t) && TurnOk(strs, true, g, t') && LinksOnly(true, t.m, t'.m)
    requires |g| == |t.m| == |t.root| && OneEach(strs, g, t.m, t.root)
    ensures |g| == |t'.m| == |t'.root| && OneEach(strs, g, t'.m, t'.root)
  {
    hide Same, WfGraph, Sound, TurnOk;
    TurnFacts(strs, g, t);
    TurnFacts(strs, g, t');
    forall x, y | 0 <= x < |g| && 0 <= y < |g| && Mapped(t'.m, x) && Mapped(t'.m, y) && Same(strs, g, x, y)
      ensures t'.root[x] == t'.root[y]
    {
      SameEnds(strs, g, t'.root, x, y);
      var z, w := t'.root[x], t'.root[y];
      assert t.m[z] == z && t.m[w] == w;
    }
  }

  /** With FWDs kept apart, a clash is all that can turn a type of one meaning away. */
  lemma EquivalentIff(strs: string, noFwds: bool, g: seq<BtfType>, root: seq<nat>, id: nat, x: nat)
    requires Setting(strs, g, root) && NamesApart(strs, g) && (noFwds || NoFwd(g)) && FwdsApart(strs, g)
    requires id < |g| && x < |g| && IsComposite(g[id].info.kind)
    ensures Equivalent(noFwds, g, root, id, x) <==> Same(strs, g, id, x) && !Clash(g, root, id, x)
  {
    hide WfGraph, Sound, Same, NamesApart, NoFwd, Clash, Equivalent, Follow;
    EquivalentMeans(strs, noFwds, g, root, id, x);
    if Same(strs, g, id, x) {
      forall p ensures !OddFwdAt(g, root, id, x, p) {
        var m := Follow(g, root, id, x, p);
        MeetingsMeanTheSame(strs, g, root, id, x, p);
        if m.At? {
          SameIsShape(strs, g, m.x, m.d);
        }
      }
    }
  }

  /** A turn makes no copies exactly when it is not blocked. */
  lemma TurnKeepsOneEachIff(strs: string, noFwds: bool, g: seq<BtfType>, t: Turn, id: nat, t': Turn)
    requires TurnOk(strs, true, g, t) && TurnOk(strs, true, g, t') && id < |g|
    requires NamesApart(strs, g) && (noFwds || NoFwd(g)) && WfGraph(g) && FwdsApart(strs, g)
    requires |g| == |t.m| == |t.root| == |t'.m| == |t'.root| && InRange(t.root, |g|) && |t.table| > 0
    requires StructStep(noFwds, true, g, t, id, t') && OneEach(strs, g, t.m, t.root)
    ensures OneEach(strs, g, t'.m, t'.root) <==> !Blocked(strs, g, t, id)
  {
    hide WfGraph, Same, NamesApart, NoFwd, FwdsApart, Clash, Equivalent, TurnOk, LinksOnly, OneEach;
    if IsComposite(g[id].info.kind) && !Mapped(t.m, id) {
      if t'.m[id] == id {
        NewCanonIff(strs, noFwds, g, t, id, t');
      } else {
        LinksKeepOneEach(strs, g, t, t');
        LinkedIsUnblocked(strs, noFwds, g, t, id, t'.m[id]);
      }
    }
  }

  lemma NewCanonIff(strs: string, noFwds: bool, g: seq<BtfType>, t: Turn, id: nat, t': Turn)
    requires TurnOk(strs, true, g, t) && TurnOk(strs, true, g, t') && id < |g| && IsComposite(g[id].info.kind)
    requires NamesApart(strs, g) && (noFwds || NoFwd(g)) && WfGraph(g) && FwdsApart(strs, g)
    requires |g| == |t.m| == |t.root| && InRange(t.root, |g|) && OneEach(strs, g, t.m, t.root)
    requires !Mapped(t.m, id) && t'.m == t.m[id := id] && t'.root == t.root
    requires forall x :: 0 <= x < |g| && t.m[x] == x ==> !Equivalent(noFwds, g, t.root, id, x)
    ensures OneEach(strs, g, t'.m, t'.root) <==> !Blocked(strs, g, t, id)
  {
    hide WfGraph, Same, NamesApart, NoFwd, FwdsApart, Clash, Equivalent, TurnOk, Sound;
    TurnFacts(strs, g, t);
    TurnFacts(strs, g, t');
    if x :| 0 <= x < |g| && BlockedBy(strs, g, t, id, x) {
      assert Mapped(t'.m, id) && Mapped(t'.m, x) && t'.root[id] != t'.root[x];
    }
    if !Blocked(strs, g, t, id) {
      forall y | 0 <= y < |g| && Mapped(t.m, y) ensures !Same(strs, g, id, y) {
        if Same(strs, g, id, y) {
          SameEnds(strs, g, t.root, id, y);
          assert !BlockedBy(strs, g, t, id, t.root[y]);
          EquivalentIff(strs, noFwds, g, t.root, id, t.root[y]);
        }
      }
      forall x, y | 0 <= x < |g| && 0 <= y < |g| && Mapped(t'.m, x) && Mapped(t'.m, y) && Same(strs, g, x, y)
        ensures t'.root[x] == t'.root[y]
      {
        SameSym(strs, g, x, y);
      }
    }
  }

  lemma LinkedIsUnblocked(strs: string, noFwds: bool, g: seq<BtfType>, t: Turn, id: nat, c: nat)
    requires TurnOk(strs, true, g, t) && id < |g| && c < |g| && IsComposite(g[id].info.kind)
    requires NamesApart(strs, g) && (noFwds || NoFwd(g)) && WfGraph(g) && FwdsApart(strs, g)
    requires |g| == |t.m| == |t.root| && InRange(t.root, |g|) && OneEach(strs, g, t.m, t.root)
    requires t.m[c] == c && Equivalent(noFwds, g, t.root, id, c)
    ensures !Blocked(strs, g, t, id)
  {
    hide WfGraph, Same, NamesApart, NoFwd, FwdsApart, Clash, Equivalent, TurnOk, Sound;
    TurnFacts(strs, g, t);
    EquivalentIff(strs, noFwds, g, t.root, id, c);
    forall x | 0 <= x < |g| ensures !BlockedBy(strs, g, t, id, x) {
      if BlockedBy(strs, g, t, id, x) {
        SameSym(strs, g, id, c);
        SameTransitive(strs, g, c, id, x);
      }
    }
  }

  // ----- what is broken stays broken -----

  lemma {:induction false} RootsKept(t: Turn, t': Turn, x: nat)
    requires Forest(t.m, t.root, t.dist) && Forest(t'.m, t'.root, t'.dist) && |t.m| == |t'.m| && x < |t.m|
    requires EndsMapped(t.m, t.root) && Mapped(t.m, x)
    requires forall i :: 0 <= i < |t.m| && Mapped(t.m, i) ==> t'.m[i] == t.m[i]
    ensures t'.root[x] == t.root[x]
    decreases t.dist[x]
  {
    assert ChainEnds(t.m, t.root, t.dist, x) && ChainEnds(t'.m, t'.root, t'.dist, x);
    if IsLink(t.m, x) {
      assert ChainEnds(t.m, t.root, t.dist, t.m[x]);
      RootsKept(t, t', t.m[x]);
    }
  }

  lemma TurnStaysBroken(strs: string, noFwds: bool, g: seq<BtfType>, t: Turn, id: nat, t': Turn)
    requires TurnOk(strs, true, g, t) && TurnOk(strs, true, g, t') && id < |g| && WfGraph(g)
    requires |g| == |t.m| == |t.root| == |t'.m| == |t'.root| && InRange(t.root, |g|) && |t.table| > 0
    requires StructStep(noFwds, true, g, t, id, t') && !OneEach(strs, g, t.m, t.root)
    ensures !OneEach(strs, g, t'.m, t'.root)
  {
    hide WfGraph, Same, Equivalent, TurnOk, Sound, Forest, EndsMapped;
    TurnFacts(strs, g, t);
    TurnFacts(strs, g, t');
    var x, y :| 0 <= x < |g| && 0 <= y < |g| && Mapped(t.m, x) && Mapped(t.m, y) && Same(strs, g, x, y)
                && t.root[x] != t.root[y];
    assert forall i :: 0 <= i < |t.m| && Mapped(t.m, i) ==> t'.m[i] == t.m[i];
    RootsKept(t, t', x);
    RootsKept(t, t', y);
  }

  // ----- the whole pass -----

  /** After pass 2 there is one copy of each primitive type exactly when FWDs are apart. */
  lemma PrimsOneEachIff(strs: string, g: seq<BtfType>, t: Turn)
    requires TurnOk(strs, true, g, t) && WfGraph(g) && NamesApart(strs, g) && |g| == |t.m| == |t.root|
    requires PrimsOnly(g, t.m, |g| - 1) && PrimsDiffer(g, t.m)
    ensures OneEach(strs, g, t.m, t.root) <==> FwdsApart(strs, g)
  {
    hide WfGraph, Same, NamesApart, TurnOk, Sound;
    TurnFacts(strs, g, t);
    forall x, y | 0 <= x < |g| && 0 <= y < |g| && Mapped(t.m, x) && Mapped(t.m, y) && Same(strs, g, x, y)
      ensures g[x].info == g[y].info && (g[x].info.kind != FWD || g[x].refs == g[y].refs ==> t.root[x] == t.root[y])
      ensures g[x].info.kind == FWD && t.root[x] == t.root[y] ==> g[x].refs == g[y].refs
    {
      SameIsShape(strs, g, x, y);
      PrimRoots(strs, g, t, x);
      PrimRoots(strs, g, t, y);
      PrimsAlike(g, x, y);
    }
    if OneEach(strs, g, t.m, t.root) {
      forall i, j | 0 <= i < |g| && 0 <= j < |g| && g[i].info.kind == FWD && Same(strs, g, i, j)
        ensures g[i].refs == g[j].refs
      {
        SameIsShape(strs, g, i, j);
        PrimRoots(strs, g, t, i);
        PrimRoots(strs, g, t, j);
      }
    }
  }

  lemma PrimRoots(strs: string, g: seq<BtfType>, t: Turn, x: nat)
    requires TurnOk(strs, true, g, t) && PrimsOnly(g, t.m, |g| - 1) && x < |g|
    ensures |t.m| == |t.root| == |g| && g[0] == VOID && (x == 0 ==> t.m[x] == 0 && t.root[x] == 0)
    ensures 0 < x && IsPrim(g[x].info.kind) ==> 
              0 < t.root[x] < |g| && t.m[t.root[x]] == t.root[x] && g[t.root[x]] == g[x] && Mapped(t.m, x)
    ensures 0 < x && !IsPrim(g[x].info.kind) ==> !Mapped(t.m, x)
  {
    hide Sound, TableOk, LinksTyped;
    assert ChainEnds(t.m, t.root, t.dist, x);
    if x > 0 {
      assert PrimMapped(g, t.m, x, |g| - 1);
      if IsPrim(g[x].info.kind) {
        assert ChainEnds(t.m, t.root, t.dist, t.m[x]);
      }
    }
  }

  lemma PrimsAlike(g: seq<BtfType>, x: nat, y: nat)
    requires WfGraph(g) && x < |g| && y < |g| && SameShape(g[x], g[y]) && g[x].info == g[y].info
    ensures IsPrim(g[x].info.kind) && (g[x].info.kind != FWD || g[x].refs == g[y].refs) ==> g[x] == g[y]
  {
    assert Shape(g[x]) == Shape(g[y]);
  }

  /** At every turn: one copy of what is mapped exactly when no turn before was blocked. */
  lemma {:induction false} OneEachSoFarIff(strs: string, noFwds: bool, g: seq<BtfType>, turns: seq<Turn>, n: nat)
    requires PassThree(strs, noFwds, true, g, turns) && Sizes(g, turns) && n < |g|
    requires NamesApart(strs, g) && (noFwds || NoFwd(g)) && FwdsApart(strs, g)
    requires OneEach(strs, g, turns[0].m, turns[0].root)
    ensures OneEach(strs, g, turns[n].m, turns[n].root) <==>
            forall i :: 0 < i <= n ==> !BlockedAt(strs, g, turns, i)
    decreases n
  {
    hide WfGraph, NamesApart, NoFwd, FwdsApart, OneEach, TurnOk, StructStep, Blocked, PrimsOnly;
    if n > 0 {
      OneEachSoFarIff(strs, noFwds, g, turns, n - 1);
      assert StepAt(noFwds, true, g, turns, n) && TurnOk(strs, true, g, turns[n - 1]) &&
             TurnOk(strs, true, g, turns[n]);
      if OneEach(strs, g, turns[n - 1].m, turns[n - 1].root) {
        TurnKeepsOneEachIff(strs, noFwds, g, turns[n - 1], n, turns[n]);
        assert BlockedAt(strs, g, turns, n) == Blocked(strs, g, turns[n - 1], n);
      } else {
        TurnStaysBroken(strs, noFwds, g, turns[n - 1], n, turns[n]);
      }
    }
  }

  ghost predicate Sizes(g: seq<BtfType>, turns: seq<Turn>) {
    |turns| == |g| > 0 && forall k :: 0 <= k < |turns| ==> |turns[k].m| == |turns[k].root| == |g|
  }

  lemma {:induction false} StaysBroken(strs: string, noFwds: bool, g: seq<BtfType>, turns: seq<Turn>, n: nat)
    requires PassThree(strs, noFwds, true, g, turns) && Sizes(g, turns) && n < |g|
    requires !OneEach(strs, g, turns[0].m, turns[0].root)
    ensures !OneEach(strs, g, turns[n].m, turns[n].root)
    decreases n
  {
    hide WfGraph, OneEach, TurnOk, StructStep, PrimsOnly;
    if n > 0 {
      StaysBroken(strs, noFwds, g, turns, n - 1);
      assert StepAt(noFwds, true, g, turns, n) && TurnOk(strs, true, g, turns[n - 1]) &&
             TurnOk(strs, true, g, turns[n]);
      TurnStaysBroken(strs, noFwds, g, turns[n - 1], n, turns[n]);
    }
  }

  lemma TurnSizes(strs: string, noFwds: bool, exact: bool, g: seq<BtfType>, turns: seq<Turn>)
    requires PassThree(strs, noFwds, exact, g, turns)
    ensures Sizes(g, turns)
  {
    hide Sound, PrimsOnly, StepAt, TableOk;
    forall k | 0 <= k < |turns| ensures |turns[k].m| == |turns[k].root| == |g| {
      assert TurnOk(strs, exact, g, turns[k]);
    }
  }

  /** Pass 3 leaves one copy of all it maps exactly when FWDs are apart and no turn is blocked. */
  lemma PassThreeIff(strs: string, noFwds: bool, g: seq<BtfType>, turns: seq<Turn>)
    requires PassThree(strs, noFwds, true, g, turns) && Sizes(g, turns)
    requires NamesApart(strs, g) && (noFwds || NoFwd(g))
    ensures var t := turns[|g| - 1];
            OneEach(strs, g, t.m, t.root) <==> FwdsApart(strs, g) && Unblocked(strs, g, turns)
  {
    hide WfGraph, NamesApart, NoFwd, FwdsApart, OneEach, TurnOk, Blocked, PrimsOnly, PrimsDiffer, StepAt;
    assert TurnOk(strs, true, g, turns[0]);
    PrimsOneEachIff(strs, g, turns[0]);
    if FwdsApart(strs, g) {
      OneEachSoFarIff(strs, noFwds, g, turns, |g| - 1);
    } else {
      StaysBroken(strs, noFwds, g, turns, |g| - 1);
    }
  }

  // ----- pass 4 and the output -----

  /** All ids that mean the same have one canonical id. */
  ghost predicate AllOne(strs: string, g: seq<BtfType>, root: seq<nat>)
    requires WfGraph(g) && |g| == |root|
  {
    forall i, j :: 0 <= i < |g| && 0 <= j < |g| && Same(strs, g, i, j) ==> root[i] == root[j]
  }

  ghost predicate NonRefsOne(strs: string, g: seq<BtfType>, root: seq<nat>)
    requires WfGraph(g) && |g| == |root|
  {
    forall i, j :: 0 <= i < |g| && 0 <= j < |g| && !IsRef(g[i].info.kind) && Same(strs, g, i, j) ==> root[i] == root[j]
  }

  /** Pass 4 carries one copy of each nonreference type on to all types. */
  lemma {:induction false} RefsFollow(strs: string, g0: seq<BtfType>, bucket: BtfType -> nat, s: RefState, i: nat,
                                      j: nat)
    requires RefOk(strs, true, g0, bucket, s) && AllMapped(s.m) && NamesApart(strs, g0) && NonRefsOne(strs, g0, s.root)
    requires i < |g0| && j < |g0| && Same(strs, g0, i, j)
    ensures s.root[i] == s.root[j]
    decreases s.fin[i]
  {
    hide WfGraph, Same, NamesApart, Forest, LinksTyped, Sound, RefTable;
    SameIsShape(strs, g0, i, j);
    if IsRef(g0[i].info.kind) {
      assert RefAt(g0, s, i) && RefAt(g0, s, j);
      forall k | 0 <= k < |g0[i].refs| ensures s.g[i].refs[k] == s.g[j].refs[k] {
        SameChild(strs, g0, i, j, k);
        assert SlotDone(g0, s, i, k) && SlotDone(g0, s, j, k);
        var x, y := g0[i].refs[k], g0[j].refs[k];
        if IsRef(g0[x].info.kind) {
          RefsFollow(strs, g0, bucket, s, x, y);
        }
      }
      RewrittenAlike(s.g[i], s.g[j], g0[i], g0[j]);
      RefExactIff(strs, true, g0, bucket, s, i, j);
    }
  }

  lemma RewrittenAlike(a: BtfType, b: BtfType, a0: BtfType, b0: BtfType)
    requires SameShape(a, a0) && SameShape(b, b0) && SameShape(a0, b0)
    requires forall k :: 0 <= k < |a0.refs| ==> a.refs[k] == b.refs[k]
    ensures a == b
  {
    assert Shape(a) == Shape(a0) == Shape(b0) == Shape(b);
    assert a.refs == b.refs;
  }

  /** The output has no copies exactly when all ids of one meaning have one canonical id. */
  lemma OutputIff(strs: string, g0: seq<BtfType>, m: seq<nat>, root: seq<nat>, n: seq<nat>, back: seq<nat>,
                  out: seq<BtfType>)
    requires IsOutput(g0, root, n, back, out) && WfGraph(out) && Sound(strs, g0, root)
    requires Numbering(m, n, back, |m|) && |m| == |g0| &&
             forall i :: 0 <= i < |g0| ==> m[root[i]] == root[i] == root[root[i]]
    requires |back| == |out| && forall k :: 0 <= k < |out| ==> back[k] < |g0| && root[back[k]] == back[k]
    ensures NoCopies(strs, out) <==> AllOne(strs, g0, root)
  {
    hide Unfold, IsOutput, Numbering, Sound, WfGraph;
    OutputInRange(g0, root, n, back, out);
    if NoCopies(strs, out) {
      forall i, j | 0 <= i < |g0| && 0 <= j < |g0| && Same(strs, g0, i, j) ensures root[i] == root[j] {
        OutputSame(strs, g0, root, n, back, out, i, j);
        BackOf(g0, root, n, back, out, i);
        BackOf(g0, root, n, back, out, j);
      }
    }
    if AllOne(strs, g0, root) {
      forall k, l | 0 <= k < |out| && 0 <= l < |out| && Same(strs, out, k, l) ensures k == l {
        NumberOf(m, g0, root, n, back, out, k);
        NumberOf(m, g0, root, n, back, out, l);
        OutputSame(strs, g0, root, n, back, out, back[k], back[l]);
      }
    }
  }

  lemma BackOf(g0: seq<BtfType>, root: seq<nat>, n: seq<nat>, back: seq<nat>, out: seq<BtfType>, i: nat)
    requires IsOutput(g0, root, n, back, out) && i < |g0|
    ensures n[root[i]] < |out| && back[n[root[i]]] == root[i]
  {
  }

  lemma NumberOf(m: seq<nat>, g0: seq<BtfType>, root: seq<nat>, n: seq<nat>, back: seq<nat>, out: seq<BtfType>, k: nat)
    requires IsOutput(g0, root, n, back, out) && Numbering(m, n, back, |m|) && |m| == |g0| && k < |out|
    requires |back| == |out| && back[k] < |g0| && root[back[k]] == back[k]
    ensures k < |back| && back[k] < |g0| && n[root[back[k]]] == k
  {
  }

  /** Ids mean the same in the output exactly when they did in the input. */
  lemma OutputSame(strs: string, g0: seq<BtfType>, root: seq<nat>, n: seq<nat>, back: seq<nat>, out: seq<BtfType>,
                   i: nat, j: nat)
    requires IsOutput(g0, root, n, back, out) && WfGraph(out) && Sound(strs, g0, root) && i < |g0| && j < |g0|
    ensures n[root[i]] < |out| && n[root[j]] < |out|
    ensures Same(strs, out, n[root[i]], n[root[j]]) <==> Same(strs, g0, i, j)
  {
    hide Unfold, IsOutput, Sound, WfGraph;
    OutputInRange(g0, root, n, back, out);
    forall k: nat
      ensures Unfold(strs, out, n[root[i]], k) == Unfold(strs, g0, i, k)
      ensures Unfold(strs, out, n[root[j]], k) == Unfold(strs, g0, j, k)
    {
      OutputMeans(strs, g0, root, n, back, out, i, k);
      OutputMeans(strs, g0, root, n, back, out, j, k);
    }
  }

  /** After pass 3 just the types that are not reference types are mapped. */
  lemma NonRefsIff(strs: string, g: seq<BtfType>, t: Turn, root: seq<nat>)
    requires TurnOk(strs, true, g, t) && WfGraph(g) && |g| == |t.m| == |t.root| == |root| && NonRefsMapped(g, t.m)
    requires forall i :: 0 <= i < |g| && Mapped(t.m, i) ==> root[i] == t.root[i]
    ensures NonRefsOne(strs, g, root) <==> OneEach(strs, g, t.m, t.root)
  {
    hide Same, Sound, TableOk, Forest, LinksTyped, EndsMapped;
    forall i, j | 0 <= i < |g| && 0 <= j < |g| && Same(strs, g, i, j) ensures g[i].info == g[j].info {
      SameChild(strs, g, i, j, 0);
      assert LabelOf(strs, g[i]).info == g[i].info && LabelOf(strs, g[j]).info == g[j].info;
    }
  }

  /** Where no FWD is resolved and equal names have equal offsets, the output has no copies
      exactly when FWDs are apart and no struct or union is blocked at its turn. */
  lemma NoCopiesIff(strs: string, noFwds: bool, g: seq<BtfType>, turns: seq<Turn>, bucket: BtfType -> nat, s: RefState,
                    n: seq<nat>, back: seq<nat>, out: seq<BtfType>)
    requires PassThree(strs, noFwds, true, g, turns) && Sizes(g, turns) && NonRefsMapped(g, turns[|g| - 1].m)
    requires NamesApart(strs, g) && (noFwds || NoFwd(g))
    requires RefOk(strs, true, g, bucket, s) && AllMapped(s.m) && Numbering(s.m, n, back, |s.m|)
    requires RootsStay(turns[|g| - 1].m, turns[|g| - 1].root, s)
    requires IsOutput(g, s.root, n, back, out) && WfGraph(out)
    ensures NoCopies(strs, out) <==> FwdsApart(strs, g) && Unblocked(strs, g, turns)
  {
    hide WfGraph, NamesApart, NoFwd, FwdsApart, OneEach, TurnOk, StepAt, PrimsOnly, PrimsDiffer, Blocked, RefAt,
         RefTable, Forest, LinksTyped, Sound, Same, IsOutput, NonRefsOne, AllOne, NoCopies, Numbering;
    var t := turns[|g| - 1];
    assert TurnOk(strs, true, g, t);
    PassThreeIff(strs, noFwds, g, turns);
    NonRefsIff(strs, g, t, s.root);
    AllOneIff(strs, g, bucket, s);
    VoidIsRoot(strs, g, t);
    OutputFacts(strs, g, bucket, s, n, back, out);
    OutputIff(strs, g, s.m, s.root, n, back, out);
  }

  lemma VoidIsRoot(strs: string, g: seq<BtfType>, t: Turn)
    requires TurnOk(strs, true, g, t)
    ensures |g| == |t.m| == |t.root| > 0 && t.m[0] == 0 && t.root[0] == 0
  {
    hide CanonOk, TableOk, Sound, WfGraph, Forest, EndsMapped;
    TurnFacts(strs, g, t);
    VoidFirst(g);
    VoidMapped(strs, true, g, t.m, t.root, t.dist);
  }

  lemma AllOneIff(strs: string, g: seq<BtfType>, bucket: BtfType -> nat, s: RefState)
    requires RefOk(strs, true, g, bucket, s) && AllMapped(s.m) && NamesApart(strs, g)
    ensures AllOne(strs, g, s.root) <==> NonRefsOne(strs, g, s.root)
  {
    hide WfGraph, NamesApart, RefAt, RefTable, Forest, LinksTyped, Sound, Same, AllMapped;
    if NonRefsOne(strs, g, s.root) {
      forall i, j | 0 <= i < |g| && 0 <= j < |g| && Same(strs, g, i, j) ensures s.root[i] == s.root[j] {
        RefsFollow(strs, g, bucket, s, i, j);
      }
    }
  }

  lemma OutputFacts(strs: string, g: seq<BtfType>, bucket: BtfType -> nat, s: RefState, n: seq<nat>, back: seq<nat>,
                    out: seq<BtfType>)
    requires RefOk(strs, true, g, bucket, s) && AllMapped(s.m) && Numbering(s.m, n, back, |s.m|)
    requires IsOutput(g, s.root, n, back, out) && s.root[0] == 0
    ensures Sound(strs, g, s.root) && |s.m| == |s.root| == |g| && |back| == |out|
    ensures forall i :: 0 <= i < |g| ==> s.root[i] < |g| && s.m[s.root[i]] == s.root[i] == s.root[s.root[i]]
    ensures forall k :: 0 <= k < |out| ==> back[k] < |g| && s.root[back[k]] == back[k]
  {
    hide WfGraph, Sound, RefTable, LinksTyped, Copied, RefAt;
    forall i | 0 <= i < |g| ensures s.m[s.root[i]] == s.root[i] == s.root[s.root[i]] {
      EndsAreNumbered(strs, true, g, bucket, s, n, back, i);
    }
    forall k | 0 <= k < |out| ensures s.root[back[k]] == back[k] {
      assert ChainEnds(s.m, s.root, s.dist, back[k]);
    }
  }

  // ----- a condition on the input alone -----

  /** No two ids that a struct or union reaches mean the same, unless they are primitive. */
  ghost predicate TwinFree(strs: string, g: seq<BtfType>)
    requires WfGraph(g)
  {
    forall a, x, y :: 0 <= a < |g| && 0 <= x < |g| && 0 <= y < |g| && TwinsBelow(strs, g, a, x, y) ==>
      IsPrim(g[x].info.kind)
  }

  ghost predicate TwinsBelow(strs: string, g: seq<BtfType>, a: nat, x: nat, y: nat)
    requires WfGraph(g) && a < |g| && x < |g| && y < |g|
  {
    && IsComposite(g[a].info.kind) && x != y && Reaches(g, a, x) && Reaches(g, a, y) && Same(strs, g, x, y)
  }

  /** Without twins no turn is blocked. */
  lemma {:induction false} TwinFreeSoFar(strs: string, noFwds: bool, g: seq<BtfType>, turns: seq<Turn>, n: nat)
    requires PassThree(strs, noFwds, true, g, turns) && Sizes(g, turns) && n < |g|
    requires NamesApart(strs, g) && (noFwds || NoFwd(g)) && FwdsApart(strs, g) && TwinFree(strs, g)
    ensures OneEach(strs, g, turns[n].m, turns[n].root) && PrimsMapped(g, turns[n].m)
    ensures n > 0 ==> !BlockedAt(strs, g, turns, n)
    decreases n
  {
    hide WfGraph, NamesApart, NoFwd, FwdsApart, OneEach, TurnOk, Blocked, PrimsOnly, PrimsDiffer, TwinFree,
         PrimsMapped, StructStep;
    if n == 0 {
      assert TurnOk(strs, true, g, turns[0]);
      PrimsOneEachIff(strs, g, turns[0]);
      TurnFacts(strs, g, turns[0]);
      PrimsMappedFirst(g, turns[0].m);
    } else {
      TwinFreeSoFar(strs, noFwds, g, turns, n - 1);
      assert StepAt(noFwds, true, g, turns, n) && TurnOk(strs, true, g, turns[n - 1]) &&
             TurnOk(strs, true, g, turns[n]);
      TwinFreeTurn(strs, g, turns[n - 1], n);
      TurnKeepsOneEachIff(strs, noFwds, g, turns[n - 1], n, turns[n]);
      PrimsStayMapped(noFwds, g, turns[n - 1], n, turns[n]);
    }
  }

  ghost predicate PrimsMapped(g: seq<BtfType>, m: seq<nat>) {
    |g| == |m| && forall i :: 0 < i < |g| && IsPrim(g[i].info.kind) ==> Mapped(m, i)
  }

  lemma PrimsMappedFirst(g: seq<BtfType>, m: seq<nat>)
    requires PrimsOnly(g, m, |g| - 1) && |g| <= MAX_ID + 1
    ensures PrimsMapped(g, m)
  {
    forall i | 0 < i < |g| && IsPrim(g[i].info.kind) ensures Mapped(m, i) {
      assert PrimMapped(g, m, i, |g| - 1);
    }
  }

  lemma PrimsStayMapped(noFwds: bool, g: seq<BtfType>, t: Turn, id: nat, t': Turn)
    requires WfGraph(g) && |g| == |t.root| == |t.m| == |t'.m| && InRange(t.root, |g|) && |t.table| > 0 && id < |g|
    requires StructStep(noFwds, true, g, t, id, t') && PrimsMapped(g, t.m)
    ensures PrimsMapped(g, t'.m)
  {
    hide WfGraph, Equivalent;
  }

  lemma TwinFreeTurn(strs: string, g: seq<BtfType>, t: Turn, id: nat)
    requires TurnOk(strs, true, g, t) && WfGraph(g) && |g| == |t.m| == |t.root| && 0 < id < |g|
    requires OneEach(strs, g, t.m, t.root) && PrimsMapped(g, t.m) && TwinFree(strs, g)
    ensures !Blocked(strs, g, t, id)
  {
    hide WfGraph, Same, TurnOk, Sound, Clash, Reaches, Settled;
    if IsComposite(g[id].info.kind) {
      forall x, y | 0 <= x < |g| && 0 <= y < |g| && x != y && Reaches(g, id, x) && Reaches(g, id, y)
                  && Same(strs, g, x, y)
        ensures Settled(strs, g, t.root, x)
      {
        assert TwinsBelow(strs, g, id, x, y);
        PrimIsSettled(strs, g, t, x);
      }
      forall x | 0 <= x < |g| ensures !BlockedBy(strs, g, t, id, x) {
        if Same(strs, g, id, x) {
          NoClash(strs, g, t.root, id, x);
        }
      }
    }
  }

  lemma PrimIsSettled(strs: string, g: seq<BtfType>, t: Turn, x: nat)
    requires WfGraph(g) && |g| == |t.m| == |t.root| && x < |g| && IsPrim(g[x].info.kind)
    requires OneEach(strs, g, t.m, t.root) && PrimsMapped(g, t.m)
    ensures Settled(strs, g, t.root, x)
  {
    hide WfGraph, Same;
    VoidFirst(g);
    forall d | 0 <= d < |g| && Same(strs, g, x, d) ensures t.root[x] == t.root[d] {
      SameChild(strs, g, x, d, 0);
      assert LabelOf(strs, g[x]).info == g[x].info && LabelOf(strs, g[d]).info == g[d].info;
    }
  }

  lemma VoidFirst(g: seq<BtfType>)
    requires WfGraph(g)
    ensures |g| > 0 && g[0] == VOID
  {
  }

  lemma NoClash(strs: string, g: seq<BtfType>, root: seq<nat>, a: nat, c: nat)
    requires WfGraph(g) && |g| == |root| && a < |g| && c < |g| && Same(strs, g, a, c) && NoTwins(strs, g, root, a)
    ensures !Clash(g, root, a, c)
  {
    hide WfGraph, Same, NoTwins;
    forall p, q ensures !ClashAt(g, root, a, c, p, q) {
      if ClashAt(g, root, a, c, p, q) {
        TwinsMeet(strs, g, root, a, c, p, q);
        assert false;
      }
    }
  }

  lemma TwinFreeIsUnblocked(strs: string, noFwds: bool, g: seq<BtfType>, turns: seq<Turn>)
    requires PassThree(strs, noFwds, true, g, turns) && Sizes(g, turns)
    requires NamesApart(strs, g) && (noFwds || NoFwd(g)) && FwdsApart(strs, g) && TwinFree(strs, g)
    ensures Unblocked(strs, g, turns)
  {
    hide WfGraph, NamesApart, NoFwd, FwdsApart, OneEach, TurnOk, Blocked, PrimsOnly, PrimsDiffer, TwinFree, StepAt;
    forall i | 0 < i < |g| ensures !BlockedAt(strs, g, turns, i) {
      TwinFreeSoFar(strs, noFwds, g, turns, i);
    }
  }

  // ----- a run that leaves a copy -----

  /** On the graph of twins pass 3 makes both structs canonical. */
  lemma TwinsStay(strs: string, turns: seq<Turn>)
    requires PassThree(strs, true, true, TWINS, turns)
    ensures |turns| == 7 && |turns[6].m| == |turns[6].root| == 7
    ensures turns[6].m[3] == 3 && turns[6].m[6] == 6 && turns[6].root[3] == 3 && turns[6].root[6] == 6
  {
    hide TurnOk, StructDone, PrimsDiffer, TurnsSoFar;
    TwinsStart(strs, turns);
    TwinTurn(strs, turns, 1);
    TwinTurn(strs, turns, 2);
    TwinTurn(strs, turns, 3);
    TwinTurn(strs, turns, 4);
    TwinTurn(strs, turns, 5);
    TwinTurn(strs, turns, 6);
    TwinRoots(strs, turns, 6);
  }

  /** What is canonical when the turn of `i` comes. */
  ghost predicate TwinState(m: seq<nat>, i: nat) {
    && |m| == 7 && m[0] == 0 && m[1] == 1
    && (forall k :: 2 <= k < 7 ==> m[k] == if k < i && (k == 3 || k == 6) then k else UNPROCESSED)
  }

  lemma TwinsStart(strs: string, turns: seq<Turn>)
    requires PassThree(strs, true, true, TWINS, turns)
    ensures |turns| == 7 && TwinState(turns[0].m, 1)
  {
    hide Sound, TableOk, Forest, LinksTyped, EndsMapped, StepAt, WfGraph, PrimsDiffer;
    var g, m := TWINS, turns[0].m;
    assert TurnOk(strs, true, g, turns[0]);
    VoidMapped(strs, true, g, m, turns[0].root, turns[0].dist);
    TwinInts();
    assert m[0] == 0;
    assert PrimMapped(g, m, 1, |g| - 1);
    assert g[m[1]] == g[1];
    assert m[1] == 1;
    forall k | 2 <= k < 7 ensures m[k] == UNPROCESSED {
      assert PrimMapped(g, m, k, |g| - 1);
    }
  }

  lemma TwinInts()
    ensures forall x :: 0 < x < 7 ==>
                          (TWINS[x].info.kind == INT <==> x == 1) && (IsPrim(TWINS[x].info.kind) <==> x == 1)
  {
    forall x | 0 < x < 7 ensures (TWINS[x].info.kind == INT <==> x == 1) && (IsPrim(TWINS[x].info.kind) <==> x == 1) {
      assert TWINS[1].info.kind == INT && TWINS[2].info.kind == TWINS[4].info.kind == TWINS[5].info.kind == PTR;
      assert TWINS[3].info.kind == TWINS[6].info.kind == STRUCT;
    }
  }

  lemma TwinRoots(strs: string, turns: seq<Turn>, i: nat)
    requires PassThree(strs, true, true, TWINS, turns) && i < |turns| == 7 && TwinState(turns[i].m, i + 1)
    ensures turns[i].root == [0, 1, 2, 3, 4, 5, 6]
  {
    hide StepAt, WfGraph, PrimsDiffer, PrimsOnly, TurnOk, Sound, Forest, EndsMapped;
    assert TurnOk(strs, true, TWINS, turns[i]);
    TurnFacts(strs, TWINS, turns[i]);
  }

  lemma TwinTurn(strs: string, turns: seq<Turn>, i: nat)
    requires PassThree(strs, true, true, TWINS, turns) && 0 < i < 7 && TwinState(turns[i - 1].m, i)
    ensures TwinState(turns[i].m, i + 1)
  {
    hide WfGraph, PrimsDiffer, PrimsOnly, TurnOk, Distinguished, Buckets, LinksOnly, WfType;
    var g, t, t' := TWINS, turns[i - 1], turns[i];
    assert StepAt(true, true, g, turns, i);
    if i == 3 || i == 6 {
      TwinRoots(strs, turns, i - 1);
      TwinsAreToldApart(strs);
      TwinKinds(g);
      assert t'.m[i] == i;
    }
  }

  lemma TwinKinds(g: seq<BtfType>)
    requires g == TWINS && WfGraph(g)
    ensures forall x :: 0 <= x < 7 && x != 3 && x != 6 ==>
                          !ShallowEqualStruct(g[3], g[x]) && !ShallowEqualStruct(g[6], g[x])
  {
    assert g[3].info.kind == g[6].info.kind == STRUCT;
    forall x | 0 <= x < 7 && x != 3 && x != 6
      ensures !ShallowEqualStruct(g[3], g[x]) && !ShallowEqualStruct(g[6], g[x])
    {
      assert g[x].info.kind != STRUCT;
    }
  }
}
