/** Passes 5 and 6 of the deduplicator, on values: the output graph keeps one descriptor
    per canonical id, renumbered, and its references are renumbered with it. */
module OutputGraph {
  import opened BtfTypes
  import opened CanonMap
  import opened RefPass

  /** `n[i]` is the compacted id of canonical id `i`, and `back` undoes it.  The numbering
      covers 1 to the new number of types without gaps and keeps the order. */
  ghost predicate Numbering(m: seq<nat>, n: seq<nat>, back: seq<nat>, upto: nat) {
    && |n| == |m| && 0 < upto <= |m| && |back| > 0 && back[0] == 0 && n[0] == 0
    && (forall k :: 0 < k < |back| ==> 0 < back[k] < upto && m[back[k]] == back[k] && n[back[k]] == k)
    && (forall k, l :: 0 <= k < l < |back| ==> back[k] < back[l])
    && (forall i :: 0 < i < upto && m[i] == i ==> 0 < n[i] < |back| && back[n[i]] == i)
    && (forall i :: 0 < i < |m| && (i >= upto || m[i] != i) ==> n[i] == UNPROCESSED)
  }

  /** Canonical ids keep their order and get every new id exactly once. */
  lemma NumberingIsOrderIsomorphism(m: seq<nat>, n: seq<nat>, back: seq<nat>, i: nat, j: nat)
    requires Numbering(m, n, back, |m|) && 0 < i < |m| && 0 < j < |m| && m[i] == i && m[j] == j
    ensures n[i] < n[j] <==> i < j
    ensures n[i] == n[j] <==> i == j
  {
  }

  /** A map has only one numbering, so passes that number the same map agree. */
  lemma NumberingIsUnique(m: seq<nat>, n: seq<nat>, back: seq<nat>, n': seq<nat>, back': seq<nat>)
    requires Numbering(m, n, back, |m|) && Numbering(m, n', back', |m|)
    ensures n == n' && back == back'
  {
    hide Numbering;
    NumberedAlike(m, n, back, n', back', |back|);
    NumberedAlike(m, n', back', n, back, |back'|);
    assert back == back';
    SameNumbers(m, n, n', back);
  }

  lemma {:induction false} NumberedAlike(m: seq<nat>, n: seq<nat>, back: seq<nat>, n': seq<nat>, back': seq<nat>,
                                         k: nat)
    requires Numbering(m, n, back, |m|) && Numbering(m, n', back', |m|) && k <= |back|
    ensures k <= |back'| && back[..k] == back'[..k]
    decreases k
  {
    if k > 1 {
      NumberedAlike(m, n, back, n', back', k - 1);
      assert forall j :: 0 <= j < k - 1 ==> back[j] == back[..k - 1][j] == back'[..k - 1][j] == back'[j];
      var i := back[k - 1];
      var l := n'[i];
      assert back'[l] == i && l >= k - 1;
      var i' := back'[k - 1];
      var l' := n[i'];
      assert back[l'] == i' && l' >= k - 1;
      assert i <= i' && i' <= i;
    }
  }

  lemma SameNumbers(m: seq<nat>, n: seq<nat>, n': seq<nat>, back: seq<nat>)
    requires Numbering(m, n, back, |m|) && Numbering(m, n', back, |m|)
    ensures n == n'
  {
    forall i | 0 <= i < |m| ensures n[i] == n'[i] {
    }
  }

  function Unnumbered(n: nat): (r: seq<nat>)
    ensures |r| == n
  {
    seq(n, i => if i == 0 then 0 else UNPROCESSED)
  }

  lemma NumberingStarts(m: seq<nat>, n: seq<nat>, back: seq<nat>)
    requires 0 < |m| && n == Unnumbered(|m|) && back == [0]
    ensures Numbering(m, n, back, 1)
  {
  }

  lemma NumberSkip(m: seq<nat>, n: seq<nat>, back: seq<nat>, i: nat)
    requires Numbering(m, n, back, i) && i < |m| && m[i] != i
    ensures Numbering(m, n, back, i + 1)
  {
  }

  lemma NumberOne(m: seq<nat>, n: seq<nat>, back: seq<nat>, i: nat)
    requires Numbering(m, n, back, i) && i < |m| && m[i] == i && |m| <= MAX_ID + 1
    ensures |back| <= i && Numbering(m, n[i := |back|], back + [i], i + 1)
  {
    BackFits(m, n, back, i);
  }

  lemma BackFits(m: seq<nat>, n: seq<nat>, back: seq<nat>, upto: nat)
    requires Numbering(m, n, back, upto)
    ensures |back| <= upto
  {
    var k := 0;
    while k < |back|
      invariant 0 <= k <= |back| && forall l :: 0 <= l < k ==> back[l] >= l
    {
      assert k > 0 ==> back[k - 1] < back[k];
      k := k + 1;
    }
    assert back[|back| - 1] < upto;
  }

  /** The descriptors `back` have been moved down in order; those from `i` on are untouched. */
  ghost predicate Compacted(t0: seq<BtfType>, types: seq<BtfType>, back: seq<nat>, i: nat) {
    && |types| == |t0| && |back| <= i <= |t0|
    && (forall k :: 0 <= k < |back| ==> back[k] < |t0| && types[k] == t0[back[k]])
    && (forall k :: i <= k < |types| ==> types[k] == t0[k])
  }

  /** The descriptors `back` of `t0`, in order. */
  ghost predicate Picked(t0: seq<BtfType>, types: seq<BtfType>, back: seq<nat>) {
    |types| == |back| && forall k :: 0 <= k < |back| ==> back[k] < |t0| && types[k] == t0[back[k]]
  }

  lemma CompactNone(t0: seq<BtfType>, back: seq<nat>)
    requires |t0| > 0 && back == [0]
    ensures Compacted(t0, t0, back, 1)
  {
  }

  lemma CompactOne(t0: seq<BtfType>, types: seq<BtfType>, back: seq<nat>, i: nat)
    requires Compacted(t0, types, back, i) && i < |t0|
    ensures |back| < |types| == |t0|
    ensures Compacted(t0, types[|back| := types[i]], back + [i], i + 1)
  {
  }

  lemma CompactSkip(t0: seq<BtfType>, types: seq<BtfType>, back: seq<nat>, i: nat)
    requires Compacted(t0, types, back, i) && i < |t0|
    ensures Compacted(t0, types, back, i + 1)
  {
  }

  lemma CompactAll(t0: seq<BtfType>, types: seq<BtfType>, back: seq<nat>, i: nat)
    requires Compacted(t0, types, back, i)
    ensures |back| <= |types| && Picked(t0, types[..|back|], back)
  {
  }

  /** A descriptor whose references are replaced by final ids. */
  function Remapped(t: BtfType, root: seq<nat>, n: seq<nat>): BtfType
    requires RefsBelow(t, |root|) && |n| == |root| && InRange(root, |n|)
  {
    t.(refs := seq(|t.refs|, j requires 0 <= j < |t.refs| => n[root[t.refs[j]]]))
  }

  /** Descriptor `k` of the output is the canonical descriptor `i` of the input, with every
      reference replaced by the final id of what it referred to. */
  ghost predicate Copied(g0: seq<BtfType>, root: seq<nat>, n: seq<nat>, out: seq<BtfType>, i: nat, k: nat)
    requires WfGraph(g0) && |g0| == |root| == |n| && InRange(root, |g0|) && i < |g0| && k < |out|
  {
    && SameShape(out[k], g0[i])
    && forall j :: 0 <= j < |out[k].refs| ==> g0[i].refs[j] < |g0| && out[k].refs[j] == n[root[g0[i].refs[j]]]
  }

  ghost predicate IsOutput(g0: seq<BtfType>, root: seq<nat>, n: seq<nat>, back: seq<nat>, out: seq<BtfType>) {
    && WfGraph(g0) && |g0| == |root| == |n| && InRange(root, |g0|) && |out| == |back| && InRange(back, |g0|)
    && (forall i :: 0 <= i < |g0| ==> n[root[i]] < |out| && back[n[root[i]]] == root[i])
    && (forall k :: 0 <= k < |out| ==> Copied(g0, root, n, out, back[k], k))
    && |out| > 0 && out[0] == VOID
  }

  /** Every reference of the output is in range. */
  lemma OutputWf(g0: seq<BtfType>, root: seq<nat>, n: seq<nat>, back: seq<nat>, out: seq<BtfType>)
    requires IsOutput(g0, root, n, back, out)
    ensures WfGraph(out)
  {
    forall k | 0 <= k < |out| ensures WfType(out[k]) && RefsBelow(out[k], |out|) {
      assert Copied(g0, root, n, out, back[k], k);
      var t, u := out[k], g0[back[k]];
      assert t.info == Shape(t).info == Shape(u).info == u.info && t.size == Shape(t).size == Shape(u).size;
      assert t.slotNames == Shape(t).slotNames == Shape(u).slotNames &&
             t.slotVals == Shape(t).slotVals == Shape(u).slotVals;
    }
  }

  lemma OutputInRange(g0: seq<BtfType>, root: seq<nat>, n: seq<nat>, back: seq<nat>, out: seq<BtfType>)
    requires IsOutput(g0, root, n, back, out)
    ensures WfGraph(g0) && |root| == |g0| == |n| && forall i :: 0 <= i < |g0| ==> root[i] < |g0| && n[root[i]] < |out|
  {
  }

  lemma SoundAt(strs: string, g: seq<BtfType>, root: seq<nat>, i: nat, k: nat)
    requires WfGraph(g) && Sound(strs, g, root) && i < |g|
    ensures root[i] < |g| && Unfold(strs, g, i, k) == Unfold(strs, g, root[i], k)
  {
    assert ChainSound(strs, g, root, i);
  }

  lemma CopiedCanon(g0: seq<BtfType>, root: seq<nat>, n: seq<nat>, back: seq<nat>, out: seq<BtfType>, i: nat)
    requires IsOutput(g0, root, n, back, out) && i < |g0|
    ensures n[root[i]] < |out| && |out[n[root[i]]].refs| == |g0[root[i]].refs|
    ensures Copied(g0, root, n, out, root[i], n[root[i]])
  {
  }

  /** The output graph, read from the final id of any input type, means what the input
      type meant: the two unfold into the same tree, to every depth. */
  lemma {:induction false} OutputMeans(strs: string, g0: seq<BtfType>, root: seq<nat>, n: seq<nat>, back: seq<nat>,
                                       out: seq<BtfType>, i: nat, k: nat)
    requires IsOutput(g0, root, n, back, out) && WfGraph(out) && Sound(strs, g0, root) && i < |g0|
    ensures Unfold(strs, out, n[root[i]], k) == Unfold(strs, g0, i, k)
    decreases k
  {
    hide Unfold, SameShape, IsOutput, Sound, WfGraph, LabelOf;
    OutputInRange(g0, root, n, back, out);
    if k == 0 {
      UnfoldZero(strs, out, n[root[i]], strs, g0, i);
    } else {
      var c := root[i];
      SoundAt(strs, g0, root, i, k);
      CopiedCanon(g0, root, n, back, out, i);
      forall j | 0 <= j < |g0[c].refs|
        ensures Unfold(strs, out, out[n[c]].refs[j], k - 1) == Unfold(strs, g0, g0[c].refs[j], k - 1)
      {
        OutputMeans(strs, g0, root, n, back, out, g0[c].refs[j], k - 1);
      }
      SameLabel(strs, out[n[c]], g0[c]);
      UnfoldNode(strs, out, n[c], strs, g0, c, k);
    }
  }

  /** After pass 4 every chain ends at an id mapped to itself, so remapping cannot fail. */
  lemma EndsAreNumbered(strs: string, exact: bool, g0: seq<BtfType>, bucket: BtfType -> nat, s: RefState, n: seq<nat>,
                        back: seq<nat>, i: nat)
    requires RefOk(strs, exact, g0, bucket, s) && AllMapped(s.m) && i < |g0|
    requires Numbering(s.m, n, back, |s.m|)
    ensures s.m[s.root[i]] == s.root[i] == s.root[s.root[i]]
    ensures n[s.root[i]] < |back| && back[n[s.root[i]]] == s.root[i]
  {
    hide RefTable, Sound, LinksTyped;
    assert RefAt(g0, s, i) && RefAt(g0, s, s.root[i]);
    assert ChainEnds(s.m, s.root, s.dist, s.root[i]);
  }

  lemma RefsStayBelow(strs: string, exact: bool, g0: seq<BtfType>, bucket: BtfType -> nat, s: RefState, i: nat)
    requires RefOk(strs, exact, g0, bucket, s) && AllMapped(s.m) && i < |g0|
    ensures SameShape(s.g[i], g0[i]) && RefsBelow(s.g[i], |g0|)
    ensures forall j :: 0 <= j < |g0[i].refs| ==>
              s.g[i].refs[j] == g0[i].refs[j] || s.g[i].refs[j] == s.root[g0[i].refs[j]]
  {
    hide RefTable, Sound, LinksTyped, Forest;
    assert RefAt(g0, s, i) && RefsBelow(g0[i], |g0|);
    if IsRef(g0[i].info.kind) {
      forall j | 0 <= j < |g0[i].refs| ensures s.g[i].refs[j] == s.root[g0[i].refs[j]] < |g0| {
        assert SlotDone(g0, s, i, j);
      }
    }
  }

  lemma CopiedOne(strs: string, exact: bool, g0: seq<BtfType>, bucket: BtfType -> nat, s: RefState, n: seq<nat>,
                  back: seq<nat>, out: seq<BtfType>, i: nat, k: nat)
    requires RefOk(strs, exact, g0, bucket, s) && AllMapped(s.m) && i < |g0| && k < |out| && |n| == |g0|
    requires Numbering(s.m, n, back, |s.m|)
    requires RefsBelow(s.g[i], |g0|) && out[k] == Remapped(s.g[i], s.root, n)
    ensures Copied(g0, s.root, n, out, i, k)
  {
    hide RefTable, Sound, LinksTyped, Forest, WfGraph, Numbering, RefAt;
    RefsStayBelow(strs, exact, g0, bucket, s, i);
    RefRange(g0, i);
    assert Shape(out[k]) == Shape(s.g[i]);
    forall j | 0 <= j < |out[k].refs| ensures g0[i].refs[j] < |g0| && out[k].refs[j] == n[s.root[g0[i].refs[j]]] {
      EndsAreNumbered(strs, exact, g0, bucket, s, n, back, g0[i].refs[j]);
    }
  }

  lemma RefRange(g: seq<BtfType>, i: nat)
    requires WfGraph(g) && i < |g|
    ensures forall j :: 0 <= j < |g[i].refs| ==> g[i].refs[j] < |g|
  {
  }

  /** The in-place passes 5 and 6, taken together, produce the output graph. */
  lemma PassesProduceOutput(strs: string, exact: bool, g0: seq<BtfType>, bucket: BtfType -> nat, s: RefState,
                            n: seq<nat>, back: seq<nat>, out: seq<BtfType>)
    requires RefOk(strs, exact, g0, bucket, s) && AllMapped(s.m) && Numbering(s.m, n, back, |s.m|)
    requires |out| == |back| && forall k :: 0 <= k < |out| ==>
                                 back[k] < |g0| && RefsBelow(s.g[back[k]], |g0|) &&
                                 out[k] == Remapped(s.g[back[k]], s.root, n)
    ensures IsOutput(g0, s.root, n, back, out)
  {
    hide RefTable, Sound, LinksTyped, Forest, Numbering;
    VoidKept(strs, exact, g0, bucket, s, n, back);
    forall i | 0 <= i < |g0| ensures n[s.root[i]] < |out| && back[n[s.root[i]]] == s.root[i] {
      EndsAreNumbered(strs, exact, g0, bucket, s, n, back, i);
    }
    forall k | 0 <= k < |out| ensures Copied(g0, s.root, n, out, back[k], k) {
      CopiedOne(strs, exact, g0, bucket, s, n, back, out, back[k], k);
    }
    assert out[0] == Remapped(VOID, s.root, n) == VOID;
  }

  lemma VoidKept(strs: string, exact: bool, g0: seq<BtfType>, bucket: BtfType -> nat, s: RefState, n: seq<nat>,
                 back: seq<nat>)
    requires RefOk(strs, exact, g0, bucket, s) && Numbering(s.m, n, back, |s.m|)
    ensures |n| == |g0| && |back| > 0 && back[0] == 0 && s.g[0] == VOID && InRange(back, |g0|)
  {
    assert RefAt(g0, s, 0);
  }

  lemma CompactedOk(strs: string, exact: bool, g0: seq<BtfType>, bucket: BtfType -> nat, s: RefState, n: seq<nat>,
                    back: seq<nat>, packed: seq<BtfType>)
    requires RefOk(strs, exact, g0, bucket, s) && AllMapped(s.m) && Numbering(s.m, n, back, |s.m|)
    requires Picked(s.g, packed, back)
    ensures |n| == |g0| && |packed| > 0 && packed[0] == VOID
    ensures forall k :: 0 <= k < |packed| ==> RefsBelow(packed[k], |g0|)
    ensures forall i :: 0 <= i < |s.root| ==> n[s.root[i]] <= MAX_ID
  {
    hide RefTable, Sound, LinksTyped, Forest, Numbering, RefAt;
    VoidKept(strs, exact, g0, bucket, s, n, back);
    forall k | 0 <= k < |packed| ensures RefsBelow(packed[k], |g0|) {
      RefsStayBelow(strs, exact, g0, bucket, s, back[k]);
    }
    BackFits(s.m, n, back, |s.m|);
    forall i | 0 <= i < |s.root| ensures n[s.root[i]] <= MAX_ID {
      EndsAreNumbered(strs, exact, g0, bucket, s, n, back, i);
    }
  }

  lemma OutputReady(strs: string, exact: bool, g0: seq<BtfType>, bucket: BtfType -> nat, s: RefState, n: seq<nat>,
                    back: seq<nat>, packed: seq<BtfType>, out: seq<BtfType>)
    requires RefOk(strs, exact, g0, bucket, s) && AllMapped(s.m) && Numbering(s.m, n, back, |s.m|) && |n| == |g0|
    requires |packed| == |back| == |out| > 0 && out[0] == packed[0]
    requires Picked(s.g, packed, back) && forall k :: 0 <= k < |packed| ==> RefsBelow(packed[k], |g0|)
    requires forall k :: 0 < k < |out| ==> out[k] == Remapped(packed[k], s.root, n)
    ensures IsOutput(g0, s.root, n, back, out)
    ensures LinksTyped(g0, s.m, s.root) && (exact ==> Sound(strs, g0, s.root))
  {
    hide RefTable, Sound, LinksTyped, Forest, Numbering, RefAt, IsOutput;
    VoidKept(strs, exact, g0, bucket, s, n, back);
    assert packed[0] == VOID;
    assert Remapped(VOID, s.root, n) == VOID;
    PassesProduceOutput(strs, exact, g0, bucket, s, n, back, out);
  }
}
