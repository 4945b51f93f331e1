/** Pass 4 of the deduplicator, reference types, on values.

    `g0` is the type graph when the pass starts.  The pass rewrites the references of
    each reference type to canonical ids, depth first, and then looks the rewritten
    descriptor up. */
module RefPass {
  import opened BtfTypes
  import opened CanonMap
  import opened DedupSpec

  /** `fin` numbers the reference types in the order in which they are finished. */
  datatype RefState = RefState(g: seq<BtfType>, m: seq<nat>, root: seq<nat>, dist: seq<nat>,
                               table: seq<seq<nat>>, fin: seq<nat>, clock: nat)

  ghost predicate Sized(g0: seq<BtfType>, s: RefState) {
    |g0| == |s.g| == |s.m| == |s.root| == |s.dist| == |s.fin| && InRange(s.root, |g0|)
  }

  /** Slot `j` of `i` has been rewritten to the canonical id of a type finished earlier. */
  ghost predicate SlotDone(g0: seq<BtfType>, s: RefState, i: nat, j: nat)
    requires WfGraph(g0) && Sized(g0, s) && i < |g0| && j < |g0[i].refs| == |s.g[i].refs|
  {
    var x := g0[i].refs[j];
    Mapped(s.m, x) && s.g[i].refs[j] == s.root[x] && (IsRef(g0[x].info.kind) ==> s.fin[x] < s.fin[i])
  }

  ghost predicate RefAt(g0: seq<BtfType>, s: RefState, i: nat)
    requires WfGraph(g0) && Sized(g0, s) && i < |g0|
  {
    && SameShape(s.g[i], g0[i])
    && (s.m[i] == UNPROCESSED || s.m[i] == IN_PROGRESS || s.m[i] < |g0|)
    && (!IsRef(g0[i].info.kind) ==> Mapped(s.m, i) && s.g[i] == g0[i] && !IsRef(g0[s.root[i]].info.kind))
    && (s.m[i] == UNPROCESSED ==> s.g[i] == g0[i])
    && (!Mapped(s.m, i) ==> s.root[i] == i)
    && (Mapped(s.m, i) ==> s.m[s.root[i]] == s.root[i] && s.fin[i] < s.clock)
    && (Mapped(s.m, i) && IsRef(g0[i].info.kind) ==>
          s.root[i] == s.m[i] && s.g[i] == s.g[s.m[i]] && forall j :: 0 <= j < |g0[i].refs| ==> SlotDone(g0, s, i, j))
  }

  /** Canonical reference types can be found in their bucket, and are pairwise different. */
  ghost predicate RefTable(g0: seq<BtfType>, s: RefState, bucket: BtfType -> nat)
    requires Sized(g0, s)
  {
    && IsBucketing(bucket, |s.table|)
    && (forall c :: 0 <= c < |g0| && s.m[c] == c && IsRef(g0[c].info.kind) ==> c in s.table[bucket(s.g[c])])
    && (forall b, x {:trigger x in s.table[b]} :: 0 <= b < |s.table| && x in s.table[b] ==>
          x < |g0| && Mapped(s.m, x) && (IsRef(g0[x].info.kind) ==> s.m[x] == x))
    && (forall c, d :: 0 <= c < |g0| && 0 <= d < |g0| && s.m[c] == c && s.m[d] == d && s.g[c] == s.g[d] ==>
          IsRef(g0[c].info.kind) && IsRef(g0[d].info.kind) ==> c == d)
  }

  ghost predicate RefOk(strs: string, exact: bool, g0: seq<BtfType>, bucket: BtfType -> nat, s: RefState) {
    && WfGraph(g0) && |g0| <= MAX_ID + 1 && Sized(g0, s)
    && (forall i :: 0 <= i < |g0| ==> RefAt(g0, s, i))
    && Forest(s.m, s.root, s.dist) && LinksTyped(g0, s.m, s.root)
    && (exact ==> Sound(strs, g0, s.root))
    && RefTable(g0, s, bucket)
  }

  /** The ids on the recursion stack are exactly those in progress, and each mentions the next. */
  ghost predicate Stack(g0: seq<BtfType>, m: seq<nat>, stack: seq<nat>) {
    && |m| == |g0|
    && (forall i :: 0 <= i < |m| ==> (m[i] == IN_PROGRESS <==> i in stack))
    && (forall k :: 0 <= k < |stack| ==> stack[k] < |g0| && IsRef(g0[stack[k]].info.kind))
    && (forall k :: 0 < k < |stack| ==> Mentions(g0, stack[k - 1], stack[k]))
  }

  predicate Mentions(g0: seq<BtfType>, i: nat, x: nat) {
    i < |g0| && x in g0[i].refs
  }

  /** A cycle of the input graph that runs through reference types only. */
  ghost predicate RefCycle(g0: seq<BtfType>, p: seq<nat>) {
    && |p| > 0
    && (forall k :: 0 <= k < |p| ==> p[k] < |g0| && IsRef(g0[p[k]].info.kind))
    && (forall k :: 0 < k < |p| ==> Mentions(g0, p[k - 1], p[k]))
    && Mentions(g0, p[|p| - 1], p[0])
  }

  ghost predicate HasRefCycle(g0: seq<BtfType>) {
    exists p :: RefCycle(g0, p)
  }

  lemma StackCloses(g0: seq<BtfType>, m: seq<nat>, stack: seq<nat>, id: nat)
    requires Stack(g0, m, stack) && id < |m| && m[id] == IN_PROGRESS
    requires Mentions(g0, stack[|stack| - 1], id)
    ensures HasRefCycle(g0)
  {
    var k :| 0 <= k < |stack| && stack[k] == id;
    var p := stack[k..];
    assert RefCycle(g0, p);
  }

  /** What is mapped or in progress is left alone. */
  ghost predicate KeptAt(s: RefState, s': RefState, i: nat)
    requires i < |s.m| && i < |s.root| && i < |s.g| && i < |s.fin|
    requires i < |s'.m| && i < |s'.root| && i < |s'.g| && i < |s'.fin|
  {
    s.m[i] != UNPROCESSED ==> s'.m[i] == s.m[i] && s'.root[i] == s.root[i] && s'.g[i] == s.g[i] && s'.fin[i] == s.fin[i]
  }

  ghost predicate RefKept(g0: seq<BtfType>, s: RefState, s': RefState) {
    && Sized(g0, s) && Sized(g0, s') && |s.table| == |s'.table|
    && forall i :: 0 <= i < |g0| ==> KeptAt(s, s', i)
  }

  // ----- the steps of the pass -----

  ghost function Begin(s: RefState, id: nat): RefState
    requires id < |s.m|
  {
    s.(m := s.m[id := IN_PROGRESS])
  }

  lemma BeginOk(strs: string, exact: bool, g0: seq<BtfType>, bucket: BtfType -> nat, s: RefState, id: nat)
    requires RefOk(strs, exact, g0, bucket, s) && id < |g0| && s.m[id] == UNPROCESSED
    ensures RefOk(strs, exact, g0, bucket, Begin(s, id)) && IsRef(g0[id].info.kind) && s.g[id] == g0[id]
  {
    hide WfGraph, Sound, Forest, LinksTyped, RefAt;
    var s' := Begin(s, id);
    MarkEnd(s.m, s.root, s.dist, id, IN_PROGRESS);
    MarkTyped(g0, s.m, s.root, id, IN_PROGRESS);
    forall i | 0 <= i < |g0| ensures RefAt(g0, s', i) {
      BeginAt(g0, s, id, i);
    }
    BeginAt(g0, s, id, id);
  }

  lemma BeginAt(g0: seq<BtfType>, s: RefState, id: nat, i: nat)
    requires WfGraph(g0) && |g0| <= MAX_ID + 1 && Sized(g0, s) && id < |g0| && i < |g0|
    requires s.m[id] == UNPROCESSED && RefAt(g0, s, id) && RefAt(g0, s, i)
    ensures RefAt(g0, Begin(s, id), i) && IsRef(g0[id].info.kind) && s.g[id] == g0[id]
  {
    var s' := Begin(s, id);
    forall j | 0 <= j < |g0[i].refs| && Mapped(s.m, i) && IsRef(g0[i].info.kind) ensures SlotDone(g0, s', i, j) {
      assert SlotDone(g0, s, i, j);
    }
  }

  ghost function Rewrite(s: RefState, id: nat, j: nat, r: nat): RefState
    requires id < |s.g| && j < |s.g[id].refs|
  {
    s.(g := s.g[id := s.g[id].(refs := s.g[id].refs[j := r])])
  }

  lemma RewriteOk(strs: string, exact: bool, g0: seq<BtfType>, bucket: BtfType -> nat, s: RefState, id: nat, j: nat,
                  r: nat)
    requires RefOk(strs, exact, g0, bucket, s) && id < |g0| && s.m[id] == IN_PROGRESS && j < |s.g[id].refs|
    ensures RefOk(strs, exact, g0, bucket, Rewrite(s, id, j, r))
  {
    hide WfGraph, Same, Forest, LinksTyped, Sound;
    var s' := Rewrite(s, id, j, r);
    assert RefAt(g0, s, id);
    forall i | 0 <= i < |g0| ensures RefAt(g0, s', i) {
      assert RefAt(g0, s, i);
      forall j | 0 <= j < |g0[i].refs| && Mapped(s.m, i) && IsRef(g0[i].info.kind) ensures SlotDone(g0, s', i, j) {
        assert SlotDone(g0, s, i, j);
      }
    }
  }

  /** Every slot of the type in progress has been rewritten. */
  ghost predicate Rewritten(g0: seq<BtfType>, s: RefState, id: nat, n: nat)
    requires WfGraph(g0) && Sized(g0, s) && id < |g0| && n <= |g0[id].refs| == |s.g[id].refs|
  {
    forall j :: 0 <= j < |g0[id].refs| ==>
                  if j < n then Mapped(s.m, g0[id].refs[j]) && s.g[id].refs[j] == s.root[g0[id].refs[j]]
                  else s.g[id].refs[j] == g0[id].refs[j]
  }

  ghost function Finish(s: RefState, id: nat, c: nat, b: nat): RefState
    requires id < |s.m| && id < |s.root| && id < |s.dist| && id < |s.fin| && c < |s.dist| && b < |s.table|
  {
    s.(m := s.m[id := c], root := s.root[id := c],
       dist := s.dist[id := if c == id then s.dist[id] else s.dist[id] + s.dist[c] + 1],
       fin := s.fin[id := s.clock], clock := s.clock + 1,
       table := if c == id then TableAdd(s.table, b, id) else s.table)
  }

  /** `c` may be made the canonical id of the type in progress. */
  ghost predicate CanFinish(g0: seq<BtfType>, bucket: BtfType -> nat, s: RefState, id: nat, c: nat)
    requires WfGraph(g0) && Sized(g0, s) && IsBucketing(bucket, |s.table|)
  {
    && id < |g0| && c < |g0| && s.m[id] == IN_PROGRESS && IsRef(g0[id].info.kind)
    && |s.g[id].refs| == |g0[id].refs| && Rewritten(g0, s, id, |g0[id].refs|)
    && (if c == id then forall x :: x in s.table[bucket(s.g[id])] ==> x < |g0| && s.g[x] != s.g[id]
        else s.m[c] == c && IsRef(g0[c].info.kind) && s.g[c] == s.g[id])
  }

  lemma FinishAt(g0: seq<BtfType>, bucket: BtfType -> nat, s: RefState, id: nat, c: nat, i: nat)
    requires WfGraph(g0) && |g0| <= MAX_ID + 1 && Sized(g0, s) && IsBucketing(bucket, |s.table|)
    requires CanFinish(g0, bucket, s, id, c)
    requires forall x :: 0 <= x < |g0| ==> RefAt(g0, s, x)
    requires i < |g0|
    ensures RefAt(g0, Finish(s, id, c, bucket(s.g[id])), i)
  {
    hide WfGraph;
    var s' := Finish(s, id, c, bucket(s.g[id]));
    assert RefAt(g0, s, i) && RefAt(g0, s, id) && RefAt(g0, s, c);
    forall j | 0 <= j < |g0[i].refs| && Mapped(s'.m, i) && IsRef(g0[i].info.kind) ensures SlotDone(g0, s', i, j) {
      FinishSlot(g0, bucket, s, id, c, i, j);
    }
  }

  lemma FinishSlot(g0: seq<BtfType>, bucket: BtfType -> nat, s: RefState, id: nat, c: nat, i: nat, j: nat)
    requires WfGraph(g0) && |g0| <= MAX_ID + 1 && Sized(g0, s) && IsBucketing(bucket, |s.table|)
    requires CanFinish(g0, bucket, s, id, c)
    requires forall x :: 0 <= x < |g0| ==> RefAt(g0, s, x)
    requires i < |g0| && j < |g0[i].refs| && (i == id || Mapped(s.m, i)) && IsRef(g0[i].info.kind)
    ensures |s.g[i].refs| == |g0[i].refs| && SlotDone(g0, Finish(s, id, c, bucket(s.g[id])), i, j)
  {
    assert RefsBelow(g0[i], |g0|);
    assert RefAt(g0, s, i) && RefAt(g0, s, g0[i].refs[j]);
    if i != id {
      assert SlotDone(g0, s, i, j);
    }
  }

  lemma FinishSound(strs: string, g0: seq<BtfType>, s: RefState, id: nat, c: nat)
    requires WfGraph(g0) && Sized(g0, s) && Sound(strs, g0, s.root)
    requires forall x :: 0 <= x < |g0| ==> RefAt(g0, s, x)
    requires id < |g0| && c < |g0| && s.root[id] == id && s.m[c] == c && IsRef(g0[c].info.kind) && c <= MAX_ID
    requires |s.g[id].refs| == |g0[id].refs| && Rewritten(g0, s, id, |g0[id].refs|) && s.g[c] == s.g[id]
    ensures SameShape(g0[id], g0[c]) && g0[id].info.kind == g0[c].info.kind && Same(strs, g0, id, c)
  {
    hide Unfold;
    assert RefAt(g0, s, id) && RefAt(g0, s, c);
    assert g0[id].info == Shape(g0[id]).info == Shape(g0[c]).info == g0[c].info;
    forall j | 0 <= j < |g0[id].refs| ensures Same(strs, g0, g0[id].refs[j], g0[c].refs[j]) {
      FinishChildSame(strs, g0, s, id, c, j);
    }
    SameByChildren(strs, g0, id, c);
  }

  lemma FinishChildSame(strs: string, g0: seq<BtfType>, s: RefState, id: nat, c: nat, j: nat)
    requires WfGraph(g0) && Sized(g0, s) && Sound(strs, g0, s.root)
    requires id < |g0| && c < |g0| && RefAt(g0, s, c) && s.m[c] == c && IsRef(g0[c].info.kind) && c <= MAX_ID
    requires j < |s.g[id].refs| == |g0[id].refs| && Rewritten(g0, s, id, |g0[id].refs|) && s.g[c] == s.g[id]
    ensures j < |g0[c].refs| && Same(strs, g0, g0[id].refs[j], g0[c].refs[j])
  {
    hide Unfold;
    assert SlotDone(g0, s, c, j);
    assert RefsBelow(g0[id], |g0|) && RefsBelow(g0[c], |g0|);
    var x, y := g0[id].refs[j], g0[c].refs[j];
    assert ChainSound(strs, g0, s.root, x) && ChainSound(strs, g0, s.root, y);
    forall k: nat ensures Unfold(strs, g0, x, k) == Unfold(strs, g0, y, k) {
      assert Unfold(strs, g0, x, k) == Unfold(strs, g0, s.root[x], k);
      assert Unfold(strs, g0, y, k) == Unfold(strs, g0, s.root[y], k);
    }
  }

  lemma FinishTable(g0: seq<BtfType>, bucket: BtfType -> nat, s: RefState, id: nat, c: nat)
    requires WfGraph(g0) && |g0| <= MAX_ID + 1 && Sized(g0, s) && RefTable(g0, s, bucket)
    requires CanFinish(g0, bucket, s, id, c)
    ensures RefTable(g0, Finish(s, id, c, bucket(s.g[id])), bucket)
  {
    hide WfGraph, Rewritten;
  }

  /** Only the type in progress itself hangs under it, so rerooting touches nothing else. */
  lemma RerootIsUpdate(g0: seq<BtfType>, s: RefState, id: nat, c: nat)
    requires WfGraph(g0) && |g0| <= MAX_ID + 1 && Sized(g0, s) && id < |g0| && c < |g0| && s.m[id] == IN_PROGRESS
    requires forall x :: 0 <= x < |g0| ==> RefAt(g0, s, x)
    ensures Reroot(s.root, id, c) == s.root[id := c]
    ensures Redist(s.dist, s.root, id, c) == s.dist[id := s.dist[id] + s.dist[c] + 1]
  {
    hide WfGraph, RefAt;
    forall x | 0 <= x < |g0| ensures s.root[x] == id <==> x == id {
      assert RefAt(g0, s, x);
      OwnRoot(g0, s, id, x);
    }
  }

  lemma OwnRoot(g0: seq<BtfType>, s: RefState, id: nat, x: nat)
    requires WfGraph(g0) && |g0| <= MAX_ID + 1 && Sized(g0, s) && id < |g0| && x < |g0| && s.m[id] == IN_PROGRESS
    requires RefAt(g0, s, x) && RefAt(g0, s, id)
    ensures s.root[x] == id <==> x == id
  {
  }

  lemma FinishLinks(strs: string, exact: bool, g0: seq<BtfType>, s: RefState, id: nat, c: nat)
    requires WfGraph(g0) && |g0| <= MAX_ID + 1 && Sized(g0, s) && id < |g0| && c < |g0| && s.m[id] == IN_PROGRESS
    requires forall x :: 0 <= x < |g0| ==> RefAt(g0, s, x)
    requires c == id || (s.m[c] == c && SameShape(g0[id], g0[c]))
    requires exact && c != id ==> Same(strs, g0, id, c)
    requires Forest(s.m, s.root, s.dist) && LinksTyped(g0, s.m, s.root) && (exact ==> Sound(strs, g0, s.root))
    ensures Forest(s.m[id := c], s.root[id := c],
                   s.dist[id := if c == id then s.dist[id] else s.dist[id] + s.dist[c] + 1])
    ensures LinksTyped(g0, s.m[id := c], s.root[id := c]) && (exact ==> Sound(strs, g0, s.root[id := c]))
  {
    hide WfGraph, Forest, LinksTyped, Sound, Same;
    if c == id {
      assert RefAt(g0, s, id);
      MarkEnd(s.m, s.root, s.dist, id, id);
      MarkTyped(g0, s.m, s.root, id, id);
      assert s.root[id := id] == s.root && s.dist[id := s.dist[id]] == s.dist;
    } else {
      RerootIsUpdate(g0, s, id, c);
      assert g0[id].nameOff == Shape(g0[id]).nameOff == Shape(g0[c]).nameOff == g0[c].nameOff;
      assert g0[id].info == Shape(g0[id]).info == Shape(g0[c]).info == g0[c].info;
      assert RefAt(g0, s, id);
      LinkEnds(s.m, s.root, s.dist, id, c);
      LinkEndsTyped(g0, s.m, s.root, id, c);
      if exact {
        LinkEndsSound(strs, g0, s.root, id, c);
      }
    }
  }

  lemma FinishOk(strs: string, exact: bool, g0: seq<BtfType>, bucket: BtfType -> nat, s: RefState, id: nat, c: nat)
    requires RefOk(strs, exact, g0, bucket, s) && CanFinish(g0, bucket, s, id, c)
    ensures RefOk(strs, exact, g0, bucket, Finish(s, id, c, bucket(s.g[id])))
  {
    hide WfGraph, Forest, LinksTyped, Sound, Same, RefTable, RefAt, Rewritten;
    BucketInTable(g0, s, bucket, id);
    if c != id {
      FinishShape(g0, s, id, c);
      if exact {
        FinishSound(strs, g0, s, id, c);
      }
    }
    FinishLinks(strs, exact, g0, s, id, c);
    FinishTable(g0, bucket, s, id, c);
    var s' := Finish(s, id, c, bucket(s.g[id]));
    forall i | 0 <= i < |g0| ensures RefAt(g0, s', i) {
      FinishAt(g0, bucket, s, id, c, i);
    }
  }

  lemma BucketInTable(g0: seq<BtfType>, s: RefState, bucket: BtfType -> nat, id: nat)
    requires Sized(g0, s) && RefTable(g0, s, bucket) && id < |g0|
    ensures IsBucketing(bucket, |s.table|) && bucket(s.g[id]) < |s.table|
  {
  }

  lemma FinishShape(g0: seq<BtfType>, s: RefState, id: nat, c: nat)
    requires WfGraph(g0) && |g0| <= MAX_ID + 1 && Sized(g0, s) && id < |g0| && c < |g0|
    requires s.m[id] == IN_PROGRESS && s.g[c] == s.g[id]
    requires forall x :: 0 <= x < |g0| ==> RefAt(g0, s, x)
    ensures s.root[id] == id && SameShape(g0[id], g0[c])
  {
    assert RefAt(g0, s, id) && RefAt(g0, s, c);
  }

  // ----- before and after the pass -----

  lemma RefInitially(strs: string, exact: bool, g: seq<BtfType>, bucket: BtfType -> nat, s: RefState)
    requires CanonOk(strs, exact, g, s.m, s.root, s.dist) && TableOk(g, s.m, s.table) && NonRefsMapped(g, s.m)
    requires IsBucketing(bucket, |s.table|) && s.g == g && |s.fin| == |g|
    requires forall i :: 0 <= i < |g| ==> s.fin[i] < s.clock
    ensures RefOk(strs, exact, g, bucket, s)
  {
    hide WfGraph, Same;
    forall i | 0 <= i < |g| ensures RefAt(g, s, i) {
      assert ChainEnds(s.m, s.root, s.dist, i) && ChainTyped(g, s.m, s.root, i);
      assert IsRef(g[i].info.kind) ==> s.m[i] == UNPROCESSED;
      assert s.m[i] == UNPROCESSED || s.m[i] <= MAX_ID;
      var r := s.root[i];
      assert IsRef(g[r].info.kind) ==> s.m[r] == UNPROCESSED;
    }
  }

  /** Pass 4 is exact: two reference types share a canonical id iff they are equal once
      their references are canonical. */
  lemma RefExactIff(strs: string, exact: bool, g0: seq<BtfType>, bucket: BtfType -> nat, s: RefState, i: nat, j: nat)
    requires RefOk(strs, exact, g0, bucket, s) && i < |g0| && j < |g0|
    requires IsRef(g0[i].info.kind) && IsRef(g0[j].info.kind) && Mapped(s.m, i) && Mapped(s.m, j)
    ensures s.m[i] == s.m[j] <==> s.g[i] == s.g[j]
  {
    assert RefAt(g0, s, i) && RefAt(g0, s, j);
    var c, d := s.m[i], s.m[j];
    assert RefAt(g0, s, c) && RefAt(g0, s, d);
    assert s.g[c].info == Shape(s.g[c]).info == Shape(g0[c]).info == g0[c].info;
    assert s.g[d].info == Shape(s.g[d]).info == Shape(g0[d]).info == g0[d].info;
    assert s.g[i].info == Shape(s.g[i]).info == Shape(g0[i]).info == g0[i].info;
    assert s.g[j].info == Shape(s.g[j]).info == Shape(g0[j]).info == g0[j].info;
  }

  ghost predicate AllMapped(m: seq<nat>) {
    forall i :: 0 <= i < |m| ==> Mapped(m, i)
  }

  /** When the pass has mapped everything, no cycle runs through reference types only:
      finishing numbers fall along every such edge. */
  lemma NoCycleLeft(strs: string, exact: bool, g0: seq<BtfType>, bucket: BtfType -> nat, s: RefState)
    requires RefOk(strs, exact, g0, bucket, s) && AllMapped(s.m)
    ensures !HasRefCycle(g0)
  {
    hide WfGraph, Forest, LinksTyped, Sound, RefTable;
    if p :| RefCycle(g0, p) {
      var k := 1;
      while k < |p|
        invariant 1 <= k <= |p| && s.fin[p[k - 1]] <= s.fin[p[0]]
      {
        EdgeFalls(g0, s, p[k - 1], p[k]);
        k := k + 1;
      }
      EdgeFalls(g0, s, p[|p| - 1], p[0]);
      assert false;
    }
  }

  lemma EdgeFalls(g0: seq<BtfType>, s: RefState, i: nat, x: nat)
    requires WfGraph(g0) && Sized(g0, s) && i < |g0| && x < |g0| && Mentions(g0, i, x)
    requires RefAt(g0, s, i) && Mapped(s.m, i) && IsRef(g0[i].info.kind) && IsRef(g0[x].info.kind)
    ensures s.fin[x] < s.fin[i]
  {
    var j :| 0 <= j < |g0[i].refs| && g0[i].refs[j] == x;
    assert SlotDone(g0, s, i, j);
  }

  ghost function Pending(m: seq<nat>): set<nat> {
    set i: nat | i < |m| && m[i] == UNPROCESSED
  }

  lemma PendingShrinks(g0: seq<BtfType>, s: RefState, s': RefState, id: nat)
    requires RefKept(g0, s, s')
    ensures Pending(s'.m) <= Pending(s.m)
    ensures id < |g0| && s.m[id] == UNPROCESSED && s'.m[id] != UNPROCESSED ==> Pending(s'.m) < Pending(s.m)
  {
    forall i | i in Pending(s'.m) ensures i in Pending(s.m) {
      assert KeptAt(s, s', i);
    }
    if id < |g0| && s.m[id] == UNPROCESSED && s'.m[id] != UNPROCESSED {
      assert id in Pending(s.m) && id !in Pending(s'.m);
    }
  }

  // ----- steps composed -----

  ghost predicate RefKeptBut(g0: seq<BtfType>, s: RefState, s': RefState, id: nat) {
    && Sized(g0, s) && Sized(g0, s') && |s.table| == |s'.table|
    && forall i :: 0 <= i < |g0| && i != id ==> KeptAt(s, s', i)
  }

  /** One more slot rewritten: the recursive call took `s1` to `s2`, and its result goes in. */
  lemma SlotRewritten(strs: string, exact: bool, g0: seq<BtfType>, bucket: BtfType -> nat, s1: RefState, s2: RefState,
                      id: nat, j: nat, r: nat)
    requires RefOk(strs, exact, g0, bucket, s1) && RefOk(strs, exact, g0, bucket, s2) && RefKept(g0, s1, s2)
    requires id < |g0| && s1.m[id] == IN_PROGRESS
    requires j < |g0[id].refs| == |s1.g[id].refs| && Rewritten(g0, s1, id, j)
    requires Mapped(s2.m, g0[id].refs[j]) && r == s2.root[g0[id].refs[j]]
    ensures j < |s2.g[id].refs| == |g0[id].refs| && s2.m[id] == IN_PROGRESS
    ensures Rewritten(g0, Rewrite(s2, id, j, r), id, j + 1)
  {
    hide Forest, LinksTyped, Sound, RefTable;
    assert KeptAt(s1, s2, id);
    assert RefsBelow(g0[id], |g0|);
    var s := Rewrite(s2, id, j, r);
    forall k | 0 <= k < |g0[id].refs|
      ensures if k < j + 1 then Mapped(s.m, g0[id].refs[k]) && s.g[id].refs[k] == s.root[g0[id].refs[k]]
              else s.g[id].refs[k] == g0[id].refs[k]
    {
      assert KeptAt(s1, s2, g0[id].refs[k]);
    }
  }

  lemma WfByShape(strs: string, exact: bool, g0: seq<BtfType>, bucket: BtfType -> nat, s: RefState)
    requires RefOk(strs, exact, g0, bucket, s)
    ensures forall i :: 0 <= i < |s.g| ==> WfType(s.g[i]) && s.g[i].info == g0[i].info && |s.g[i].refs| == |g0[i].refs|
  {
    hide Forest, LinksTyped, Sound, RefTable;
    forall i | 0 <= i < |s.g| ensures WfType(s.g[i]) && s.g[i].info == g0[i].info && |s.g[i].refs| == |g0[i].refs| {
      assert RefAt(g0, s, i);
      assert s.g[i].info == Shape(s.g[i]).info == Shape(g0[i]).info && s.g[i].size == Shape(s.g[i]).size;
      assert s.g[i].slotNames == Shape(s.g[i]).slotNames && s.g[i].slotVals == Shape(s.g[i]).slotVals;
    }
  }

  /** The entries of a bucket, as the walk over it needs them. */
  lemma RefBucket(strs: string, exact: bool, g0: seq<BtfType>, bucket: BtfType -> nat, s: RefState, id: nat)
    requires RefOk(strs, exact, g0, bucket, s) && id < |g0|
    ensures bucket(s.g[id]) < |s.table|
    ensures forall x :: x in s.table[bucket(s.g[id])] ==> x < |g0| && (IsRef(g0[x].info.kind) ==> s.m[x] == x)
  {
  }

  lemma FinishKeeps(g0: seq<BtfType>, s: RefState, id: nat, c: nat, b: nat, stack: seq<nat>)
    requires Sized(g0, s) && id < |g0| && c < |g0| <= MAX_ID + 1 && b < |s.table|
    requires Stack(g0, s.m, stack + [id]) && id !in stack
    ensures RefKeptBut(g0, s, Finish(s, id, c, b), id)
    ensures Stack(g0, Finish(s, id, c, b).m, stack)
  {
    var st := stack + [id];
    forall k | 0 <= k < |stack|
      ensures stack[k] < |g0| && IsRef(g0[stack[k]].info.kind) && (k > 0 ==> Mentions(g0, stack[k - 1], stack[k])) {
      assert st[k] == stack[k] && (k > 0 ==> st[k - 1] == stack[k - 1]);
    }
    var m' := Finish(s, id, c, b).m;
    forall i | 0 <= i < |m'| ensures m'[i] == IN_PROGRESS <==> i in stack {
      assert i in st <==> i in stack || i == id;
    }
  }

  lemma PushOk(g0: seq<BtfType>, m: seq<nat>, stack: seq<nat>, id: nat)
    requires Stack(g0, m, stack) && id < |m| && m[id] == UNPROCESSED && IsRef(g0[id].info.kind)
    requires stack != [] ==> Mentions(g0, stack[|stack| - 1], id)
    ensures Stack(g0, m[id := IN_PROGRESS], stack + [id]) && id !in stack
  {
  }

  lemma RefSizes(strs: string, exact: bool, g0: seq<BtfType>, bucket: BtfType -> nat, s: RefState, id: nat)
    requires RefOk(strs, exact, g0, bucket, s) && id < |g0|
    ensures WfGraph(g0) && |g0| <= MAX_ID + 1 && Sized(g0, s) && Forest(s.m, s.root, s.dist)
    ensures s.m[id] == UNPROCESSED || s.m[id] == IN_PROGRESS || s.m[id] <= MAX_ID
    ensures RefKept(g0, s, s) && RefKeptBut(g0, s, s, id) && IsBucketing(bucket, |s.table|)
    ensures Mapped(s.m, id) ==> s.root[id] < |g0|
  {
    assert RefAt(g0, s, id);
  }

  lemma VoidInRange(strs: string, exact: bool, g0: seq<BtfType>, bucket: BtfType -> nat, s: RefState)
    requires RefOk(strs, exact, g0, bucket, s)
    ensures |g0| > 0
  {
  }

  lemma RefTyped(strs: string, exact: bool, g0: seq<BtfType>, bucket: BtfType -> nat, s: RefState)
    requires RefOk(strs, exact, g0, bucket, s)
    ensures Forest(s.m, s.root, s.dist) && LinksTyped(g0, s.m, s.root)
  {
  }

  lemma StackNotEmpty(g0: seq<BtfType>, m: seq<nat>, stack: seq<nat>, id: nat)
    requires Stack(g0, m, stack) && id < |m| && m[id] == IN_PROGRESS
    ensures stack != []
  {
  }

  lemma BeginKeeps(g0: seq<BtfType>, s: RefState, id: nat)
    requires Sized(g0, s) && id < |g0| && s.m[id] == UNPROCESSED
    ensures RefKept(g0, s, Begin(s, id))
  {
  }

  lemma NothingRewritten(g0: seq<BtfType>, s: RefState, id: nat)
    requires WfGraph(g0) && Sized(g0, s) && id < |g0| && s.g[id] == g0[id]
    ensures Rewritten(g0, s, id, 0)
  {
  }

  lemma NextSlot(g0: seq<BtfType>, s: RefState, id: nat, j: nat)
    requires WfGraph(g0) && Sized(g0, s) && id < |g0| && j < |s.g[id].refs| == |g0[id].refs| && Rewritten(g0, s, id, j)
    ensures s.g[id].refs[j] == g0[id].refs[j] < |g0| && Mentions(g0, id, s.g[id].refs[j])
  {
  }

  lemma RewriteKeeps(g0: seq<BtfType>, s0: RefState, s1: RefState, s2: RefState, id: nat, j: nat, r: nat)
    requires RefKeptBut(g0, s0, s1, id) && RefKept(g0, s1, s2) && id < |g0| && j < |s2.g[id].refs|
    ensures RefKeptBut(g0, s0, Rewrite(s2, id, j, r), id)
  {
    var s := Rewrite(s2, id, j, r);
    forall i | 0 <= i < |g0| && i != id ensures KeptAt(s0, s, i) {
      assert KeptAt(s0, s1, i) && KeptAt(s1, s2, i);
    }
  }

  /** Begin, rewrite and finish together leave alone what was mapped or in progress. */
  lemma FinishedKeeps(g0: seq<BtfType>, s0: RefState, s1: RefState, s2: RefState, id: nat)
    requires Sized(g0, s0) && id < |g0| && s0.m[id] == UNPROCESSED
    requires RefKeptBut(g0, Begin(s0, id), s1, id) && RefKeptBut(g0, s1, s2, id)
    ensures RefKept(g0, s0, s2)
  {
    var b := Begin(s0, id);
    forall i | 0 <= i < |g0| ensures KeptAt(s0, s2, i) {
      if i != id {
        assert KeptAt(b, s1, i) && KeptAt(s1, s2, i);
      }
    }
  }

  lemma NoStackYet(strs: string, exact: bool, g: seq<BtfType>, m: seq<nat>, root: seq<nat>, dist: seq<nat>)
    requires CanonOk(strs, exact, g, m, root, dist)
    ensures Stack(g, m, []) && Mapped(m, 0)
  {
  }

  /** What was mapped in `m0` is mapped and has kept its canonical id. */
  ghost predicate RootsStay(m0: seq<nat>, root0: seq<nat>, s: RefState) {
    && |m0| == |root0| == |s.m| == |s.root|
    && forall i :: 0 <= i < |m0| && Mapped(m0, i) ==> Mapped(s.m, i) && s.root[i] == root0[i]
  }

  lemma RootsStayFirst(m0: seq<nat>, root0: seq<nat>, s: RefState)
    requires s.m == m0 && s.root == root0 && |m0| == |root0|
    ensures RootsStay(m0, root0, s)
  {
  }

  lemma RootsStaySame(m0: seq<nat>, root0: seq<nat>, s: RefState, s': RefState)
    requires RootsStay(m0, root0, s) && s'.m == s.m && s'.root == s.root
    ensures RootsStay(m0, root0, s')
  {
  }

  lemma RootsStayKept(g0: seq<BtfType>, m0: seq<nat>, root0: seq<nat>, s: RefState, s': RefState)
    requires RootsStay(m0, root0, s) && RefKept(g0, s, s')
    ensures RootsStay(m0, root0, s')
  {
    forall i | 0 <= i < |m0| && Mapped(m0, i) ensures Mapped(s'.m, i) && s'.root[i] == root0[i] {
      assert KeptAt(s, s', i);
    }
  }

  lemma StaysMapped(g0: seq<BtfType>, s: RefState, s': RefState)
    requires RefKept(g0, s, s')
    ensures Sized(g0, s')
    ensures forall i :: 0 <= i < |s.m| && Mapped(s.m, i) ==> Mapped(s'.m, i)
  {
    forall i | 0 <= i < |s.m| && Mapped(s.m, i) ensures Mapped(s'.m, i) {
      assert KeptAt(s, s', i);
    }
  }
}
