/** The canonical map `d->map` of the deduplicator, as a value.

    The map is a forest: an entry is a link to another id, or an end (mapped to
    itself, or not mapped yet).  `root` and `dist` witness that every chain of links
    ends: `root[i]` is where it ends, and `dist` falls along every link. */
module CanonMap {
  import opened BtfTypes

  const MAX_ID := 0x7fff_ffff
  const UNPROCESSED := 0xffff_ffff
  const IN_PROGRESS := 0xffff_fffe

  predicate Mapped(m: seq<nat>, i: nat)
    requires i < |m|
  {
    m[i] <= MAX_ID
  }

  predicate IsLink(m: seq<nat>, i: nat)
    requires i < |m|
  {
    Mapped(m, i) && m[i] != i
  }

  predicate InRange(ids: seq<nat>, n: nat) {
    forall i :: 0 <= i < |ids| ==> ids[i] < n
  }

  ghost predicate Forest(m: seq<nat>, root: seq<nat>, dist: seq<nat>) {
    && |m| == |root| == |dist| && InRange(root, |m|)
    && forall i :: 0 <= i < |m| ==> ChainEnds(m, root, dist, i)
  }

  ghost predicate ChainEnds(m: seq<nat>, root: seq<nat>, dist: seq<nat>, i: nat)
    requires |m| == |root| == |dist| && i < |m|
  {
    && root[i] < |m|
    && !IsLink(m, root[i])
    && (!IsLink(m, i) ==> root[i] == i)
    && (IsLink(m, i) ==> m[i] < |m| && root[m[i]] == root[i] && dist[m[i]] < dist[i])
  }

  ghost function Reroot(root: seq<nat>, r: nat, c: nat): (s: seq<nat>)
    ensures |s| == |root|
    ensures forall x :: 0 <= x < |s| ==> s[x] == if root[x] == r then c else root[x]
  {
    seq(|root|, x requires 0 <= x < |root| => if root[x] == r then c else root[x])
  }

  ghost function Redist(dist: seq<nat>, root: seq<nat>, r: nat, c: nat): (s: seq<nat>)
    requires |root| == |dist| && c < |dist|
    ensures |s| == |root|
    ensures forall x :: 0 <= x < |s| ==> s[x] == if root[x] == r then dist[x] + dist[c] + 1 else dist[x]
  {
    seq(|root|, x requires 0 <= x < |root| => if root[x] == r then dist[x] + dist[c] + 1 else dist[x])
  }

  /** Linking one end to a different end keeps the map a forest. */
  lemma LinkEnds(m: seq<nat>, root: seq<nat>, dist: seq<nat>, r: nat, c: nat)
    requires Forest(m, root, dist)
    requires r < |m| && c < |m| && r != c && c <= MAX_ID
    requires !IsLink(m, r) && !IsLink(m, c)
    ensures Forest(m[r := c], Reroot(root, r, c), Redist(dist, root, r, c))
  {
    var m', root', dist' := m[r := c], Reroot(root, r, c), Redist(dist, root, r, c);
    forall i | 0 <= i < |m| ensures ChainEnds(m', root', dist', i) {
      assert ChainEnds(m, root, dist, i) && ChainEnds(m, root, dist, c) && ChainEnds(m, root, dist, r);
    }
  }

  /** Marking an end as mapped to itself, or as in progress, changes no chain. */
  lemma MarkEnd(m: seq<nat>, root: seq<nat>, dist: seq<nat>, r: nat, v: nat)
    requires Forest(m, root, dist)
    requires r < |m| && !IsLink(m, r) && (v == r || v > MAX_ID)
    ensures Forest(m[r := v], root, dist)
  {
    var m' := m[r := v];
    forall i | 0 <= i < |m'| ensures ChainEnds(m', root, dist, i) {
      assert ChainEnds(m, root, dist, i);
    }
  }

  /** The witness is not a choice: a map has only one `root`. */
  lemma {:induction false} RootIsUnique(m: seq<nat>, root: seq<nat>, dist: seq<nat>, root': seq<nat>, dist': seq<nat>,
                                        i: nat)
    requires Forest(m, root, dist) && Forest(m, root', dist')
    requires i < |m|
    ensures root[i] == root'[i]
    decreases dist[i]
  {
    assert ChainEnds(m, root, dist, i) && ChainEnds(m, root', dist', i);
    if IsLink(m, i) {
      RootIsUnique(m, root, dist, root', dist', m[i]);
    }
  }

  // ----- what links may join -----

  /** STRUCT or UNION for a forward declaration (btf_fwd_kind), the kind itself otherwise. */
  function DeclaredKind(t: BtfType): Kind {
    if t.info.kind != FWD then t.info.kind else if t.info.kflag then UNION else STRUCT
  }

  predicate LinkAllowed(from: BtfType, to: BtfType) {
    && from.nameOff == to.nameOff
    && DeclaredKind(from) == DeclaredKind(to)
    && (IsComposite(from.info.kind) ==> to.info.kind != FWD)
  }

  /** The flag of a forward declaration means a union: such a one is never linked to a struct,
      nor one without it to a union. */
  lemma FlagMeansUnion(f: BtfType, t: BtfType)
    requires f.info.kind == FWD && (LinkAllowed(f, t) || LinkAllowed(t, f))
    ensures t.info.kind == UNION ==> f.info.kflag
    ensures t.info.kind == STRUCT ==> !f.info.kflag
  {
  }

  /** Every link, and every whole chain, joins types that have the same name offset and
      the same declared kind, and never goes from a struct or union to a FWD. */
  ghost predicate LinksTyped(g: seq<BtfType>, m: seq<nat>, root: seq<nat>) {
    && |g| == |m| == |root|
    && forall i :: 0 <= i < |m| ==> ChainTyped(g, m, root, i)
  }

  ghost predicate ChainTyped(g: seq<BtfType>, m: seq<nat>, root: seq<nat>, i: nat)
    requires |g| == |m| == |root| && i < |m|
  {
    && root[i] < |m|
    && LinkAllowed(g[i], g[root[i]])
    && (IsLink(m, i) ==> m[i] < |m| && LinkAllowed(g[i], g[m[i]]))
  }

  lemma LinkEndsTyped(g: seq<BtfType>, m: seq<nat>, root: seq<nat>, r: nat, c: nat)
    requires LinksTyped(g, m, root)
    requires r < |m| && c < |m| && c <= MAX_ID && LinkAllowed(g[r], g[c])
    ensures LinksTyped(g, m[r := c], Reroot(root, r, c))
  {
    var m', root' := m[r := c], Reroot(root, r, c);
    forall i | 0 <= i < |m'| ensures ChainTyped(g, m', root', i) {
      assert ChainTyped(g, m, root, i);
    }
  }

  lemma MarkTyped(g: seq<BtfType>, m: seq<nat>, root: seq<nat>, r: nat, v: nat)
    requires LinksTyped(g, m, root) && r < |m| && (v == r || v > MAX_ID)
    ensures LinksTyped(g, m[r := v], root)
  {
    var m' := m[r := v];
    forall i | 0 <= i < |m'| ensures ChainTyped(g, m', root, i) {
      assert ChainTyped(g, m, root, i);
    }
  }

  /** Every id means what the end of its chain means, and has the same kind. */
  ghost predicate Sound(strs: string, g: seq<BtfType>, root: seq<nat>)
    requires WfGraph(g)
  {
    && |root| == |g|
    && forall i :: 0 <= i < |g| ==> ChainSound(strs, g, root, i)
  }

  ghost predicate ChainSound(strs: string, g: seq<BtfType>, root: seq<nat>, i: nat)
    requires WfGraph(g) && |root| == |g| && i < |g|
  {
    root[i] < |g| && g[i].info.kind == g[root[i]].info.kind && Same(strs, g, i, root[i])
  }

  lemma LinkEndsSound(strs: string, g: seq<BtfType>, root: seq<nat>, r: nat, c: nat)
    requires WfGraph(g) && Sound(strs, g, root)
    requires r < |g| && c < |g| && g[r].info.kind == g[c].info.kind && Same(strs, g, r, c)
    ensures Sound(strs, g, Reroot(root, r, c))
  {
    var root' := Reroot(root, r, c);
    forall i | 0 <= i < |g| ensures ChainSound(strs, g, root', i) {
      assert ChainSound(strs, g, root, i);
      SameTransitive(strs, g, i, root[i], root'[i]);
    }
  }

  lemma SameTransitive(strs: string, g: seq<BtfType>, a: nat, b: nat, c: nat)
    requires WfGraph(g) && a < |g| && b < |g| && c < |g|
    requires Same(strs, g, a, b) && (b == c || Same(strs, g, b, c))
    ensures Same(strs, g, a, c)
  {
  }
}
