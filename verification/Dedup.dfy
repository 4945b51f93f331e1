/** `btf__dedup`, passes 2 to 6, on the type graph of one BTF section. */
module Dedup {
  import opened Common
  import opened BtfTypes
  import opened Bits
  import opened CanonMap
  import opened HypotMap
  import opened EquivCheck
  import opened EquivMeaning
  import opened DedupSpec
  import opened RefPass
  import opened OutputGraph
  import opened OneCopy

  /** The number of buckets for a requested table size: a power of two, so that a mask selects
      the bucket. */
  method RoundupPow2Max(size: nat, maxLog: nat) returns (r: nat)
    ensures IsPow2(r) && r <= Pow2(maxLog)
    ensures size <= Pow2(maxLog) ==> size <= r
    ensures forall k: nat :: k <= maxLog && size <= Pow2(k) ==> r <= Pow2(k)
  {
    var i := 0;
    r := 1;
    while i < maxLog && r < size
      invariant 0 <= i <= maxLog && r == Pow2(i)
      invariant forall k: nat :: k < i ==> Pow2(k) < size
    {
      i := i + 1;
      r := 2 * r;
    }
    assert r == Pow2(i);
    forall k: nat ensures k <= maxLog && size <= Pow2(k) ==> r <= Pow2(k) {
      if i <= k {
        Pow2Monotone(i, k);
      }
    }
    Pow2Monotone(i, maxLog);
  }

  class BtfDedup {
    /** The string section, deduplicated by pass 1, and the descriptors, `types[0]` void. */
    const strs: string
    var types: seq<BtfType>
    const noFwds: bool
    /** No FWD is ever resolved: the caller forbids it, or there is none. */
    ghost const exact: bool
    /** `d->map`; `root` and `dist` witness that it is a forest. */
    var canon: seq<nat>
    ghost var root: seq<nat>
    ghost var dist: seq<nat>
    var hypot: seq<nat>
    var hypotList: seq<nat>
    var table: seq<seq<nat>>
    /** The order in which pass 4 finishes types. */
    ghost var fin: seq<nat>
    ghost var clock: nat

    constructor (strs: string, types: seq<BtfType>, noFwds: bool, tableSize: nat)
      requires WfGraph(types) && |types| <= MAX_ID + 1
      ensures this.strs == strs && this.types == types && this.noFwds == noFwds && exact == (noFwds || NoFwd(types))
      ensures IsPow2(|table|) && (forall b :: 0 <= b < |table| ==> table[b] == [])
      ensures |canon| == |types| && canon[0] == 0
      ensures forall i :: 0 < i < |canon| ==> canon[i] == UNPROCESSED
      ensures Clear() && Core()
    {
      hide CanonOk, TableOk, WfGraph, IsPow2, NoFwd;
      GraphBasics(types);
      exact := noFwds || NoFwd(types);
      this.strs, this.types, this.noFwds := strs, types, noFwds;
      var sz := RoundupPow2Max(if tableSize == 0 then 0x4000 else tableSize, 31);
      table := seq(sz, i => []);
      canon := [0] + seq(|types| - 1, i => UNPROCESSED);
      root := seq(|types|, i => i);
      dist := seq(|types|, i => 0);
      hypot := seq(|types|, i => UNPROCESSED);
      hypotList := [];
      fin, clock := [], 0;
      new;
      InitiallyOk(strs, exact, types, canon, root, dist);
      Pow2Positive(|table|);
      TableStarts(types, canon, table);
    }

    ghost predicate Core()
      reads this
    {
      && CanonOk(strs, exact, types, canon, root, dist) && TableOk(types, canon, table)
      && (exact ==> noFwds || NoFwd(types))
    }

    ghost predicate HypotOk()
      reads this
    {
      && |hypot| == |types| && ListsRecorded(hypot, hypotList)
      && forall c :: 0 <= c < |hypot| && Recorded(hypot, c) ==> hypot[c] < |types|
    }

    ghost predicate Clear()
      reads this
    {
      |hypot| == |types| && hypotList == [] && forall c :: 0 <= c < |hypot| ==> hypot[c] == UNPROCESSED
    }

    // ----- lookups -----

    method ResolveTypeId(id: nat) returns (r: nat)
      requires Forest(canon, root, dist) && id < |canon|
      ensures r == root[id]
    {
      r := id;
      while canon[r] <= MAX_ID && canon[r] != r
        invariant r < |canon| && root[r] == root[id]
        invariant ChainEnds(canon, root, dist, r)
        decreases dist[r]
      {
        r := canon[r];
      }
    }

    method ResolveFwdId(id: nat) returns (r: nat)
      requires Forest(canon, root, dist) && id < |canon| == |types|
      ensures r == if types[id].info.kind == FWD && types[root[id]].info.kind != FWD then root[id] else id
      ensures r == ResolveFwd(types, root, id)
    {
      if types[id].info.kind != FWD {
        return id;
      }
      r := ResolveTypeId(id);
      if types[r].info.kind == FWD {
        r := id;
      }
    }

    /** Walks a bucket for the first candidate that matches `t`. */
    method FindCandidate(t: BtfType, b: nat) returns (found: bool, cand: nat)
      requires WfType(t) && b < |table| && forall i :: 0 <= i < |types| ==> WfType(types[i])
      requires IsPrim(t.info.kind) || IsRef(t.info.kind)
      requires forall x :: x in table[b] ==> x < |types|
      ensures found ==> cand in table[b] && types[cand] == t
      ensures !found ==> forall x :: x in table[b] ==> types[x] != t
    {
      hide CandidateMatches;
      found, cand := false, 0;
      var i := 0;
      while i < |table[b]|
        invariant 0 <= i <= |table[b]|
        invariant forall j :: 0 <= j < i ==> table[b][j] in table[b] && types[table[b][j]] != t
      {
        assert table[b][i] in table[b];
        CandidateMatchIsEquality(t, types[table[b][i]]);
        if CandidateMatches(t, types[table[b][i]]) {
          return true, table[b][i];
        }
        i := i + 1;
      }
    }

    // ----- pass 2 -----

    method DedupPrimType(id: nat) returns (err: int)
      requires Core() && 0 < id < |types| && PrimExact(types, canon, table, Buckets(|table|), id - 1)
      modifies this`canon, this`root, this`dist, this`table
      ensures Core() && |table| == old(|table|)
      ensures err == if KnownKind(types[id].info.kind) then 0 else -EINVAL
      ensures err == 0 ==> PrimExact(types, canon, table, Buckets(|table|), id)
    {
      hide Buckets, CanonOk, TableOk, PrimExact, WfGraph, WfType;
      var t := types[id];
      CoreSizes(strs, exact, types, canon, root, dist, table);
      PrimReady(types, canon, table, Buckets(|table|), id);
      var b := Buckets(|table|)(t);
      if IsRef(t.info.kind) || IsComposite(t.info.kind) {
        PrimSkipped(types, canon, table, Buckets(|table|), id);
        return 0;
      }
      if !IsPrim(t.info.kind) {
        return -EINVAL;
      }
      var newId := id;
      var found, cand := FindCandidate(t, b);
      if found {
        newId := cand;
        SameByChildren(strs, types, id, cand);
        CanonLink(strs, exact, types, canon, root, dist, id, cand);
        PrimLinked(types, canon, table, Buckets(|table|), id, cand);
        TableKept(types, canon, table, id, cand);
        root, dist := Reroot(root, id, cand), Redist(dist, root, id, cand);
      } else {
        CanonSelf(strs, exact, types, canon, root, dist, id);
        PrimAdded(types, canon, table, Buckets(|table|), id);
        TableKept(types, canon, table, id, id);
        TableGrown(types, canon[id := id], table, b, id);
      }
      canon := canon[id := newId];
      if id == newId {
        table := TableAdd(table, b, id);
      }
      return 0;
    }

    method DedupPrimTypes() returns (err: int)
      requires Core() && PrimExact(types, canon, table, Buckets(|table|), 0)
      modifies this`canon, this`root, this`dist, this`table
      ensures Core()
      ensures err == if AllKnown(types) then 0 else -EINVAL
      ensures err == 0 ==> PrimExact(types, canon, table, Buckets(|table|), |types| - 1)
    {
      hide Buckets, CanonOk, TableOk, PrimExact, KnownKind;
      CoreSizes(strs, exact, types, canon, root, dist, table);
      var i := 1;
      while i < |types|
        invariant 1 <= i <= |types| && |table| > 0 && Core() && PrimExact(types, canon, table, Buckets(|table|), i - 1)
        invariant forall j :: 0 < j < i ==> KnownKind(types[j].info.kind)
      {
        err := DedupPrimType(i);
        if err != 0 {
          return;
        }
        i := i + 1;
      }
      err := 0;
    }

    // ----- pass 3 -----

    /** Starts a type-graph equivalence check, or goes on with one. */
    ghost predicate Checking()
      reads this
    {
      && WfGraph(types) && |types| == |canon| == |root| == |hypot| <= MAX_ID + 1
      && Forest(canon, root, dist) && InRange(root, |types|)
      && HypotOk()
    }

    method HypotMapAdd(from: nat, to: nat)
      requires HypotOk() && from < |hypot| && !Recorded(hypot, from) && to < |types| <= MAX_ID + 1
      modifies this`hypot, this`hypotList
      ensures HypotOk() && hypot == old(hypot)[from := to] && hypotList == old(hypotList) + [from]
    {
      hypotList := hypotList + [from];
      hypot := hypot[from := to];
    }

    method ClearHypotMap()
      requires HypotOk()
      modifies this`hypot, this`hypotList
      ensures |hypot| == |types| && hypotList == [] && forall c :: 0 <= c < |hypot| ==> !Recorded(hypot, c)
    {
      ghost var h0 := hypot;
      var i := 0;
      while i < |hypotList|
        invariant 0 <= i <= |hypotList| && |hypot| == |h0| && hypotList == old(hypotList)
        invariant forall c :: 0 <= c < |hypot| ==>
                                hypot[c] == if c in hypotList[..i] then UNPROCESSED else h0[c]
      {
        hypot := hypot[hypotList[i] := UNPROCESSED];
        assert hypotList[..i + 1] == hypotList[..i] + [hypotList[i]];
        i := i + 1;
      }
      assert hypotList[..i] == hypotList;
      hypotList := [];
    }

    /** Side-by-side traversal of the candidate and the canonical graph. */
    method IsEquiv(cand: nat, canonId: nat) returns (r: int)
      requires Checking() && cand < |types| && canonId < |types|
      modifies this`hypot, this`hypotList
      ensures Checking()
      ensures Extends(old(hypot), hypot) && old(hypotList) <= hypotList
      ensures r == 1 ==> Related(types, root, hypot, cand, canonId)
      ensures r == 1 ==> NewPairsClosed(noFwds, types, root, old(hypot), hypot, -1)
      ensures r == 1 ==> Forced(noFwds, types, root, old(hypot), hypot, cand, canonId)
      ensures r == 0 ==> Hopeless(noFwds, types, root, old(hypot), cand, canonId)
      ensures r == 0 || r == 1 || (r == -EINVAL && !AllKnown(types))
      ensures old(hypotList) == [] && root[cand] != root[canonId] ==>
                hypotList != [] && hypotList[0] == ResolveFwd(types, root, canonId)
      decreases Unrecorded(hypot), 0
    {
      hide WfGraph, CompareTypes, PairClosed, Forest, SameShape, ListsRecorded, NewPairsClosed, AllKnown, FwdPair,
           Forced, Hopeless, ForcedPair, HopelessPair, Unrecorded;
      GraphBasics(types);
      var candRoot := ResolveTypeId(cand);
      var canonRoot := ResolveTypeId(canonId);
      NothingNew(noFwds, types, root, hypot);
      RelatedByPair(noFwds, types, root, hypot, hypot, cand, canonId);
      if candRoot == canonRoot {
        return 1;
      }
      var c := ResolveFwdId(canonId);
      if hypot[c] <= MAX_ID {
        RecordedIsListed(hypot, hypotList, c);
        return if hypot[c] == cand then 1 else 0;
      }
      HypotMapAdd(c, cand);
      UnrecordedShrinks(old(hypot), hypot, c);
      VerdictIsShape(noFwds, types[cand], types[c]);
      match CompareTypes(noFwds, types[cand], types[c])
      case Differ =>
        DifferIsHopeless(noFwds, types, root, old(hypot), cand, c);
        return 0;
      case BadKind =>
        BadKindIsUnknown(types, canon, root, dist, cand, canonId);
        return -EINVAL;
      case Agree =>
        AgreeClosesPair(noFwds, types, root, old(hypot), hypot, c);
        ForcedRecorded(noFwds, types, root, old(hypot), cand, c);
        RelatedByPair(noFwds, types, root, old(hypot), hypot, cand, canonId);
        return 1;
      case Children =>
        r := EquivChildren(cand, c, old(hypot));
        RelatedByPair(noFwds, types, root, old(hypot), hypot, cand, canonId);
    }

    /** Compares the types that a recorded pair of descriptors refer to. */
    method EquivChildren(cand: nat, c: nat, ghost h0: seq<nat>) returns (r: int)
      requires Checking() && cand < |types| && c < |types| && hypot[c] == cand
      requires SameShape(types[cand], types[c]) && !IsPrim(types[c].info.kind)
      requires |h0| == |hypot| && !Recorded(h0, c) && hypot == h0[c := cand] && hypotList != []
      modifies this`hypot, this`hypotList
      ensures Checking()
      ensures Extends(old(hypot), hypot) && old(hypotList) <= hypotList
      ensures r == 1 ==> NewPairsClosed(noFwds, types, root, h0, hypot, -1)
      ensures r == 1 ==> ForcedPair(noFwds, types, root, h0, hypot, cand, c)
      ensures r == 0 ==> HopelessPair(noFwds, types, root, h0, cand, c)
      ensures r == 0 || r == 1 || (r == -EINVAL && !AllKnown(types))
      decreases Unrecorded(hypot), 1
    {
      hide WfGraph, WfType, SameShape, PairClosed, Forest, ListsRecorded, NewPairsClosed, SlotsRelated, ResolveFwd,
           AllKnown, Unrecorded, VisitSlot, Forced, Hopeless, ForcedPair, HopelessPair;
      ForcedRecorded(noFwds, types, root, h0, cand, c);
      OnlyOpenIsNew(noFwds, types, root, h0, hypot, c);
      NoSlotYet(types, root, hypot, cand, c);
      var a, b := types[cand], types[c];
      var j := 0;
      while j < |b.refs|
        invariant 0 <= j <= |b.refs| && Checking()
        invariant Extends(old(hypot), hypot) && old(hypotList) <= hypotList
        invariant NewPairsClosed(noFwds, types, root, h0, hypot, c)
        invariant SlotsRelated(types, root, hypot, cand, c, j)
        invariant ForcedPair(noFwds, types, root, h0, hypot, cand, c)
      {
        ghost var h1 := hypot;
        UnrecordedShrinks(old(hypot), hypot, c);
        SlotIds(types, cand, c, j);
        var s := VisitSlot(b, j);
        r := IsEquiv(a.refs[s], b.refs[s]);
        ChildDecides(noFwds, types, root, h0, h1, hypot, cand, c, s);
        if r != 1 {
          return;
        }
        NewPairsCompose(noFwds, types, root, h0, h1, hypot, c);
        OneMoreSlot(types, root, h1, hypot, cand, c, j);
        j := j + 1;
      }
      CloseOpenPair(noFwds, types, root, h0, hypot, c);
      r := 1;
    }

    /** Links one chain end to another. */
    method SetLink(r: nat, c: nat)
      requires Core() && r < |types| && c < |types| && r != c && r != 0
      requires !IsLink(canon, r) && !IsLink(canon, c)
      requires LinkAllowed(types[r], types[c]) && !IsRef(types[r].info.kind)
      requires IsComposite(types[r].info.kind) ==> !Mapped(canon, r)
      requires exact ==> types[r].info.kind == types[c].info.kind && Same(strs, types, r, c)
      requires exact ==> !Mapped(canon, r) && canon[c] == c
      modifies this`canon, this`root, this`dist
      ensures Core() && MapKept(types, old(canon), canon) && canon == old(canon)[r := c]
      ensures LinksOnly(exact, old(canon), canon)
      ensures root == Reroot(old(root), r, c)
      ensures StaysResolved(types, old(root), root)
    {
      hide CanonOk, TableOk, MapKept, Same, StaysResolved, LinkAllowed, LinksOnly;
      CoreSizes(strs, exact, types, canon, root, dist, table);
      LinksStep(exact, canon, r, c);
      RerootResolves(types, root, r, c);
      CanonLink(strs, exact, types, canon, root, dist, r, c);
      TableKept(types, canon, table, r, c);
      MapKeptRefl(types, canon);
      MapKeptStep(types, canon, canon, r, c);
      root, dist := Reroot(root, r, c), Redist(dist, root, r, c);
      canon := canon[r := c];
    }

    method MergePair(c: nat)
      requires Core() && |hypot| == |types| && PairFacts(strs, exact, types, hypot) && c < |types| && Recorded(hypot, c)
      modifies this`canon, this`root, this`dist
      ensures Core() && MapKept(types, old(canon), canon) && StaysResolved(types, old(root), root)
      ensures LinksOnly(exact, old(canon), canon)
      ensures var t := hypot[c];
        && canon == Merged(types, old(canon), old(root)[t], old(root)[c]) && PairResolved(types, root, hypot, c)
        && root == MergedRoot(types, old(canon), old(root), old(root)[t], old(root)[c])
        && (IsComposite(types[root[t]].info.kind) && Mapped(canon, root[c]) ==> Mapped(canon, root[t]))
      ensures var t := hypot[c];
        (!old(Mapped(canon, t)) && old(canon[c]) == c
         && IsComposite(types[t].info.kind) && IsComposite(types[c].info.kind)) ==> canon[t] == c
    {
      hide CanonOk, TableOk, PairFacts, MapKept, Same, Forest, WfType, StaysResolved, LinksOnly;
      LinksRefl(exact, canon);
      CoreSizes(strs, exact, types, canon, root, dist, table);
      ResolvedRefl(types, root);
      PairEnds(strs, exact, types, canon, root, dist, hypot, c);
      MapKeptRefl(types, canon);
      var tId := ResolveTypeId(hypot[c]);
      var cId := ResolveTypeId(c);
      var tKind := types[tId].info.kind;
      var cKind := types[cId].info.kind;
      if tKind != FWD && cKind == FWD {
        SetLink(cId, tId);
      } else if tKind == FWD && cKind != FWD {
        SetLink(tId, cId);
      }
      if IsComposite(tKind) && cKind != FWD && canon[cId] <= MAX_ID && !(canon[tId] <= MAX_ID) {
        SetLink(tId, cId);
      }
    }

    /** Records in the canonical map what a successful check established.  `id` and
        `newId` are the two types that were compared. */
    method MergeHypotMap(ghost id: nat, ghost newId: nat)
      requires Core() && HypotOk() && PairFacts(strs, exact, types, hypot)
      requires id < |types| && newId < |types| && IsComposite(types[id].info.kind)
      requires IsComposite(types[newId].info.kind)
      requires !Mapped(canon, id) && canon[newId] == newId
      requires hypotList != [] && hypotList[0] == newId && hypot[newId] == id
      modifies this`canon, this`root, this`dist
      ensures Core() && MapKept(types, old(canon), canon) && canon[id] == newId && LinksOnly(exact, old(canon), canon)
      ensures |root| == |types| && InRange(root, |types|) && InRange(hypotList, |types|)
      ensures InRange(old(root), |types|) && |old(root)| == |old(canon)| == |types|
      ensures (canon, root) == MergeAll(types, old(canon), old(root), hypot, hypotList)
      ensures forall k :: 0 <= k < |hypotList| ==> PairResolved(types, root, hypot, hypotList[k])
    {
      hide CanonOk, TableOk, PairFacts, PairResolved, StaysResolved, ListsRecorded, MapKept, Merged, Forest, WfGraph,
           WfType, LinksOnly, MergeAll, MergedRoot;
      LinksRefl(exact, canon);
      CoreSizes(strs, exact, types, canon, root, dist, table);
      ListedInRange(hypot, hypotList, |types|);
      MergeNone(types, canon, root, hypot);
      MapKeptRefl(types, canon);
      var i := 0;
      while i < |hypotList|
        invariant 0 <= i <= |hypotList| && Core() && MapKept(types, old(canon), canon)
        invariant LinksOnly(exact, old(canon), canon)
        invariant |canon| == |root| == |types| && InRange(root, |types|)
        invariant (canon, root) == MergeAll(types, old(canon), old(root), hypot, hypotList[..i])
        invariant forall k :: 0 <= k < i ==> PairResolved(types, root, hypot, hypotList[k])
        invariant if i == 0 then canon == old(canon) else canon[id] == newId
      {
        ghost var m1, root1 := canon, root;
        ListedAt(hypot, hypotList, i);
        MergeOne(types, old(canon), old(root), hypot, hypotList, i);
        MergePair(hypotList[i]);
        CoreSizes(strs, exact, types, canon, root, dist, table);
        ResolvedKept(types, root1, root, hypot, hypotList, i);
        MapKeptTrans(types, old(canon), m1, canon);
        LinksTrans(exact, old(canon), m1, canon);
        KeptAfter(types, m1, canon, id);
        i := i + 1;
      }
      assert hypotList[..i] == hypotList;
    }

    /** Checks a struct or union against one candidate, and merges on success. */
    method TryCandidate(id: nat, cand: nat) returns (eq: int)
      requires Core() && HypotOk() && id < |types| && cand < |types|
      requires IsComposite(types[id].info.kind) && IsComposite(types[cand].info.kind)
      requires !Mapped(canon, id) && canon[cand] == cand
      modifies this`hypot, this`hypotList, this`canon, this`root, this`dist
      ensures Core() && HypotOk()
      ensures eq == 0 || eq == 1 || (eq == -EINVAL && !AllKnown(types))
      ensures eq >= 0 ==> (eq == 0 <==> Distinguished(noFwds, types, old(root), id, cand))
      ensures eq >= 0 && exact && NamesApart(strs, types) ==>
                (eq == 1 <==> Same(strs, types, id, cand) && !Clash(types, old(root), id, cand)
                              && !OddFwds(types, old(root), id, cand))
      ensures if eq == 1 then
                && MapKept(types, old(canon), canon) && LinksOnly(exact, old(canon), canon) && canon[id] == cand
                && |old(root)| == |old(canon)| == |types| && InRange(old(root), |types|) && WfGraph(types)
                && MergedFrom(noFwds, types, old(canon), old(root), id, cand, canon, root)
              else canon == old(canon) && root == old(root) && dist == old(dist)
    {
      hide MergeAll, MergedFrom, LinksOnly, NamesApart, Same, Clash, OddFwds, NoFwd, Forced, Hopeless, Distinguished,
           CanonOk, TableOk, PairFacts, MapKept, Forest, ListsRecorded, NewPairsClosed, WfType, AllKnown, ResolveFwd,
           Related;
      CoreSizes(strs, exact, types, canon, root, dist, table);
      ClearHypotMap();
      NothingListed(hypot, hypotList);
      ghost var h0 := hypot;
      eq := IsEquiv(id, cand);
      VerdictIsExact(noFwds, types, root, h0, hypot, id, cand);
      if exact && NamesApart(strs, types) {
        CanonIsSetting(strs, types, canon, root, dist);
        CheckDecidesMeaning(strs, noFwds, types, root, id, cand);
      }
      if eq == 1 {
        CheckSucceeded(strs, exact, noFwds, types, canon, root, dist, table, h0, hypot, id, cand);
        MergeHypotMap(id, cand);
        CheckIsMerged(noFwds, types, old(canon), old(root), id, cand, canon, root, h0, hypot, hypotList);
      }
    }

    ghost function State(): Turn
      reads this
    {
      Turn(canon, root, dist, table)
    }

    /** Walks a bucket for a candidate whose type graph is equivalent. */
    method FindEquivalent(id: nat, b: nat) returns (err: int, newId: nat)
      requires Core() && HypotOk() && 0 < id < |types| && b < |table|
      requires IsComposite(types[id].info.kind) && !Mapped(canon, id)
      modifies this`hypot, this`hypotList, this`canon, this`root, this`dist
      ensures Core() && HypotOk() && |canon| == |types|
      ensures err == 0 || (err == -EINVAL && !AllKnown(types))
      ensures if err == 0 && newId != id then
                && MapKept(types, old(canon), canon) && LinksOnly(exact, old(canon), canon)
                && Mapped(canon, id) && canon[id] == newId
              else canon == old(canon)
      ensures err == 0 ==> newId == id || (newId in table[b] && Equivalent(noFwds, types, old(root), id, newId)
                                           && newId < |types| && old(canon)[newId] == newId
                                           && MergedFrom(noFwds, types, old(canon), old(root), id, newId, canon, root))
      ensures err == 0 && newId == id ==> forall x :: x in table[b] ==> !Equivalent(noFwds, types, root, id, x)
      ensures err == 0 && newId == id ==> root == old(root) && dist == old(dist)
    {
      hide MergedFrom, LinksOnly, Distinguished, CanonOk, TableOk, MapKept, ListsRecorded, WfGraph, WfType, AllKnown,
           ShallowEqualStruct;
      CoreSizes(strs, exact, types, canon, root, dist, table);
      newId := id;
      var i := 0;
      while i < |table[b]|
        invariant Core() && HypotOk() && canon == old(canon) && root == old(root) && dist == old(dist)
        invariant 0 <= i <= |table[b]|
        invariant forall k :: 0 <= k < i ==> !Equivalent(noFwds, types, root, id, table[b][k])
      {
        var cand := table[b][i];
        TableEntry(types, canon, table, b, i);
        AlikeIsComposite(types[id], types[cand]);
        if ShallowEqualStruct(types[id], types[cand]) {
          var eq := TryCandidate(id, cand);
          if eq < 0 {
            return eq, id;
          }
          if eq != 0 {
            CoreSizes(strs, exact, types, canon, root, dist, table);
            return 0, cand;
          }
        }
        i := i + 1;
      }
      CoreSizes(strs, exact, types, canon, root, dist, table);
      err := 0;
    }

    method DedupStructType(id: nat) returns (err: int)
      requires Core() && HypotOk() && 0 < id < |types|
      modifies this`hypot, this`hypotList, this`canon, this`root, this`dist, this`table
      ensures Core() && HypotOk() && MapKept(types, old(canon), canon)
      ensures err == 0 || (err == -EINVAL && !AllKnown(types))
      ensures err == 0 && IsComposite(types[id].info.kind) ==> Mapped(canon, id)
      ensures err == 0 ==>
                && |old(canon)| == |canon| == |types| && |old(root)| == |types| && InRange(old(root), |types|)
                && |old(table)| > 0 && WfGraph(types) && StructStep(noFwds, exact, types, old(State()), id, State())
    {
      hide MergedFrom, LinksOnly, Equivalent, CanonOk, TableOk, MapKept, ListsRecorded, WfType, AllKnown, Buckets;
      CoreSizes(strs, exact, types, canon, root, dist, table);
      MapKeptRefl(types, canon);
      if canon[id] <= MAX_ID {
        return 0;
      }
      var t := types[id];
      if !IsComposite(t.info.kind) {
        return 0;
      }
      var b := Buckets(|table|)(t);
      BucketInRange(|table|, t);
      var newId;
      err, newId := FindEquivalent(id, b);
      if err < 0 {
        return;
      }
      if newId == id {
        CanonSelf(strs, exact, types, canon, root, dist, id);
        TableSelf(types, canon, table, id);
        NoneEquivalent(id, b);
        MapKeptStep(types, canon, canon, id, id);
      } else {
        assert canon[id := newId] == canon;
      }
      canon := canon[id := newId];
      if id == newId {
        table := TableAdd(table, b, id);
      }
    }

    lemma NoneEquivalent(id: nat, b: nat)
      requires Core() && |types| == |canon| == |root| && 0 <= id < |types| && IsComposite(types[id].info.kind)
      requires b == Buckets(|table|)(types[id]) < |table| && WfGraph(types) && InRange(root, |types|)
      requires forall x :: x in table[b] ==> !Equivalent(noFwds, types, root, id, x)
      ensures forall x :: 0 <= x < |types| && canon[x] == x ==> !Equivalent(noFwds, types, root, id, x)
    {
      hide CanonOk, TableOk, Buckets, Equivalent, WfGraph, NoFwd;
      forall x | 0 <= x < |types| && canon[x] == x ensures !Equivalent(noFwds, types, root, id, x) {
        if Equivalent(noFwds, types, root, id, x) {
          BucketHasAll(noFwds, types, canon, root, table, id, x);
        }
      }
    }

    /** `turns[i - 1]` is the state when the turn of `i` comes. */
    method DedupStructTypes() returns (err: int, ghost turns: seq<Turn>)
      requires Core() && HypotOk() && AllKnown(types)
      requires PrimsOnly(types, canon, |types| - 1) && PrimsDiffer(types, canon)
      modifies this`hypot, this`hypotList, this`canon, this`root, this`dist, this`table
      ensures err == 0 && Core() && HypotOk() && NonRefsMapped(types, canon)
      ensures PassThree(strs, noFwds, exact, types, turns)
      ensures turns[0] == old(State()) && turns[|types| - 1] == State()
    {
      hide CanonOk, TableOk, ListsRecorded, WfType, WfGraph, PrimsOnly, PrimsDiffer, TurnsSoFar, StructStep, MapKept,
           NoFwd, Forest, InRange, AllKnown, NonRefsMapped, DoneUpTo;
      CoreSizes(strs, exact, types, canon, root, dist, table);
      turns := [State()];
      FirstTurn(strs, noFwds, exact, types, State());
      DoneFirst(types, canon);
      var i := 1;
      while i < |types|
        invariant 1 <= i <= |types| && Core() && HypotOk()
        invariant |turns| == i && |canon| == |types| && turns[0] == old(State()) && turns[i - 1] == State()
        invariant TurnsSoFar(strs, noFwds, exact, types, turns)
        invariant DoneUpTo(types, canon, i)
      {
        ghost var m1 := canon;
        err := DedupStructType(i);
        if err != 0 {
          return;
        }
        NextTurn(strs, noFwds, exact, types, turns, State());
        turns := turns + [State()];
        DoneNext(types, m1, canon, i);
        i := i + 1;
      }
      VoidMapped(strs, exact, types, canon, root, dist);
      DoneAll(types, canon);
      err := 0;
    }

    // ----- pass 4 -----

    ghost function Ref(): RefState
      reads this
    {
      RefState(types, canon, root, dist, table, fin, clock)
    }

    ghost predicate RefReady(g0: seq<BtfType>, stack: seq<nat>)
      reads this
    {
      |table| > 0 && RefOk(strs, exact, g0, Buckets(|table|), Ref()) && Stack(g0, canon, stack)
    }

    /** Returns the canonical id of `id`, or a negative error. */
    method DedupRefType(id: nat, ghost g0: seq<BtfType>, ghost stack: seq<nat>) returns (r: int)
      requires RefReady(g0, stack) && id < |g0|
      requires stack != [] ==> Mentions(g0, stack[|stack| - 1], id)
      modifies this`types, this`canon, this`root, this`dist, this`table, this`fin, this`clock
      ensures |table| == old(|table|) > 0 && RefOk(strs, exact, g0, Buckets(|table|), Ref())
      ensures r >= 0 ==> RefReady(g0, stack) && RefKept(g0, old(Ref()), Ref()) && Mapped(canon, id) && r == root[id]
      ensures r < 0 ==> r == -ELOOP && HasRefCycle(g0)
      decreases Pending(canon), 0
    {
      hide RefOk, Stack, Buckets, RefKept, HasRefCycle, Mentions;
      RefSizes(strs, exact, g0, Buckets(|table|), Ref(), id);
      if canon[id] == IN_PROGRESS {
        StackNotEmpty(g0, canon, stack, id);
        StackCloses(g0, canon, stack, id);
        return -ELOOP;
      }
      if canon[id] <= MAX_ID {
        r := ResolveTypeId(id);
        return;
      }
      BeginOk(strs, exact, g0, Buckets(|table|), Ref(), id);
      PushOk(g0, canon, stack, id);
      ghost var s0 := Ref();
      canon := canon[id := IN_PROGRESS];
      BeginKeeps(g0, s0, id);
      PendingShrinks(g0, s0, Ref(), id);
      r := RewriteSlots(id, g0, stack + [id]);
      if r < 0 {
        return;
      }
      ghost var s1 := Ref();
      r := FinishRef(id, g0, stack);
      FinishedKeeps(g0, s0, s1, Ref(), id);
    }

    /** Replaces every id that a type in progress mentions by its canonical id. */
    method RewriteSlots(id: nat, ghost g0: seq<BtfType>, ghost stack: seq<nat>) returns (r: int)
      requires RefReady(g0, stack) && id < |g0| && stack != [] && stack[|stack| - 1] == id
      requires canon[id] == IN_PROGRESS && types[id] == g0[id]
      modifies this`types, this`canon, this`root, this`dist, this`table, this`fin, this`clock
      ensures |table| == old(|table|) > 0 && RefOk(strs, exact, g0, Buckets(|table|), Ref())
      ensures r >= 0 ==> RefReady(g0, stack) && RefKeptBut(g0, old(Ref()), Ref(), id) && canon[id] == IN_PROGRESS
      ensures r >= 0 ==> |types[id].refs| == |g0[id].refs| && Rewritten(g0, Ref(), id, |g0[id].refs|)
      ensures r < 0 ==> r == -ELOOP && HasRefCycle(g0)
      decreases Pending(canon), 1
    {
      hide RefOk, Stack, Buckets, RefKept, RefKeptBut, HasRefCycle, Rewritten, Pending, WfGraph, WfType, Mentions,
           InRange, Forest, IsBucketing;
      RefSizes(strs, exact, g0, Buckets(|table|), Ref(), id);
      NothingRewritten(g0, Ref(), id);
      r := 0;
      var j := 0;
      while j < |types[id].refs|
        invariant Sized(g0, Ref()) && |table| == old(|table|) && canon[id] == IN_PROGRESS && r >= 0
        invariant RefReady(g0, stack) && RefKeptBut(g0, old(Ref()), Ref(), id)
        invariant j <= |types[id].refs| == |g0[id].refs| && Rewritten(g0, Ref(), id, j)
        invariant Pending(canon) <= old(Pending(canon))
      {
        ghost var s1 := Ref();
        NextSlot(g0, Ref(), id, j);
        r := DedupRefType(types[id].refs[j], g0, stack);
        if r < 0 {
          return;
        }
        RefSizes(strs, exact, g0, Buckets(|table|), Ref(), id);
        SlotRewritten(strs, exact, g0, Buckets(|table|), s1, Ref(), id, j, r);
        RewriteOk(strs, exact, g0, Buckets(|table|), Ref(), id, j, r);
        PendingShrinks(g0, s1, Ref(), id);
        RewriteKeeps(g0, old(Ref()), s1, Ref(), id, j, r);
        types := types[id := types[id].(refs := types[id].refs[j := r])];
        j := j + 1;
      }
    }

    /** Looks a rewritten reference type up, and makes it canonical if it is new. */
    method FinishRef(id: nat, ghost g0: seq<BtfType>, ghost stack: seq<nat>) returns (newId: nat)
      requires RefReady(g0, stack + [id]) && id < |g0| && id !in stack && canon[id] == IN_PROGRESS
      requires IsRef(g0[id].info.kind) && |types[id].refs| == |g0[id].refs| && Rewritten(g0, Ref(), id, |g0[id].refs|)
      modifies this`canon, this`root, this`dist, this`table, this`fin, this`clock
      ensures |table| == old(|table|)
      ensures RefReady(g0, stack) && RefKeptBut(g0, old(Ref()), Ref(), id) && Mapped(canon, id) && newId == root[id]
    {
      hide RefOk, Stack, Buckets, RefKept, RefKeptBut, Rewritten, WfGraph, WfType, Forest, InRange;
      RefSizes(strs, exact, g0, Buckets(|table|), Ref(), id);
      WfByShape(strs, exact, g0, Buckets(|table|), Ref());
      RefBucket(strs, exact, g0, Buckets(|table|), Ref(), id);
      var t := types[id];
      var b := Buckets(|table|)(t);
      newId := id;
      var found, cand := FindCandidate(t, b);
      if found {
        newId := cand;
      }
      FinishOk(strs, exact, g0, Buckets(|table|), Ref(), id, newId);
      FinishKeeps(g0, Ref(), id, newId, b, stack);
      dist := dist[id := if newId == id then dist[id] else dist[id] + dist[newId] + 1];
      root, fin, clock := root[id := newId], fin[id := clock], clock + 1;
      canon := canon[id := newId];
      if id == newId {
        table := TableAdd(table, b, id);
      }
    }

    method DedupRefTypes() returns (err: int)
      requires Core() && NonRefsMapped(types, canon)
      modifies this`types, this`canon, this`root, this`dist, this`table, this`fin, this`clock
      ensures err == 0 || err == -ELOOP
      ensures |table| > 0 && RefOk(strs, exact, old(types), Buckets(|table|), Ref())
      ensures err == 0 ==> RefReady(old(types), []) && AllMapped(canon) && RootsStay(old(canon), old(root), Ref())
      ensures err == -ELOOP <==> HasRefCycle(old(types))
    {
      hide CanonOk, TableOk, NonRefsMapped, RefOk, Buckets, HasRefCycle, RefKept, Stack, Forest, WfGraph, WfType,
           RootsStay;
      ghost var g0 := types;
      CoreSizes(strs, exact, types, canon, root, dist, table);
      fin, clock := seq(|types|, i => 0), 1;
      BucketsAreBuckets(|table|);
      RefInitially(strs, exact, types, Buckets(|table|), Ref());
      NoStackYet(strs, exact, types, canon, root, dist);
      RootsStayFirst(canon, root, Ref());
      var i := 1;
      while i < |types|
        invariant 1 <= i <= |types| == |g0| && Sized(g0, Ref()) && RefReady(g0, [])
        invariant RootsStay(old(canon), old(root), Ref())
        invariant forall j :: 0 <= j < i ==> Mapped(canon, j)
      {
        ghost var s := Ref();
        err := DedupRefType(i, g0, []);
        if err < 0 {
          return;
        }
        StaysMapped(g0, s, Ref());
        RootsStayKept(g0, old(canon), old(root), s, Ref());
        i := i + 1;
      }
      NoCycleLeft(strs, exact, g0, Buckets(|table|), Ref());
      err := 0;
    }

    // ----- pass 5 -----

    /** Moves the canonical descriptors down over the others and numbers them in `hypot`. */
    method CompactTypes() returns (ghost back: seq<nat>)
      requires 0 < |types| == |canon| == |hypot| <= MAX_ID + 1
      modifies this`types, this`hypot
      ensures Numbering(canon, hypot, back, |canon|)
      ensures Picked(old(types), types, back)
    {
      hide Numbering, Compacted, Picked;
      var nextId;
      nextId, back := MoveDown();
      CompactAll(old(types), types, back, |canon|);
      types := types[..nextId];
    }

    /** The loop of the pass: the types kept are numbered, and moved down in order. */
    method MoveDown() returns (nextId: nat, ghost back: seq<nat>)
      requires 0 < |types| == |canon| == |hypot| <= MAX_ID + 1
      modifies this`types, this`hypot
      ensures Numbering(canon, hypot, back, |canon|) && Compacted(old(types), types, back, |canon|)
      ensures nextId == |back|
    {
      hide Numbering, Compacted, Unnumbered;
      hypot := Unnumbered(|types|);
      back := [0];
      NumberingStarts(canon, hypot, back);
      nextId := 1;
      var i := 1;
      ghost var t0 := types;
      CompactNone(types, back);
      while i < |canon|
        invariant 1 <= i <= |canon| == |hypot| && |types| == |t0| == |canon| && nextId == |back| <= i
        invariant Numbering(canon, hypot, back, i) && Compacted(t0, types, back, i)
      {
        if canon[i] == i {
          KeepType(i, nextId, t0, back);
          back := back + [i];
          nextId := nextId + 1;
        } else {
          CompactSkip(t0, types, back, i);
          NumberSkip(canon, hypot, back, i);
        }
        i := i + 1;
      }
    }

    /** Gives a canonical type its new id and moves its descriptor there. */
    method KeepType(i: nat, nextId: nat, ghost t0: seq<BtfType>, ghost back: seq<nat>)
      requires i < |canon| == |hypot| == |types| == |t0| <= MAX_ID + 1 && canon[i] == i && nextId == |back|
      requires Numbering(canon, hypot, back, i) && Compacted(t0, types, back, i)
      modifies this`types, this`hypot
      ensures |back| <= i && hypot == old(hypot)[i := nextId] && types == old(types)[nextId := old(types)[i]]
      ensures Numbering(canon, hypot, back + [i], i + 1) && Compacted(t0, types, back + [i], i + 1)
    {
      hide Numbering, Compacted;
      CompactOne(t0, types, back, i);
      NumberOne(canon, hypot, back, i);
      hypot := hypot[i := nextId];
      types := types[nextId := types[i]];
    }

    // ----- pass 6 -----

    method RemapTypeId(id: nat) returns (r: int)
      requires Forest(canon, root, dist) && |hypot| == |canon| && id < |canon|
      ensures r == if hypot[root[id]] <= MAX_ID then hypot[root[id]] else -EINVAL
    {
      var resolved := ResolveTypeId(id);
      var newId := hypot[resolved];
      if newId > MAX_ID {
        return -EINVAL;
      }
      return newId;
    }

    method RemapType(k: nat) returns (err: int)
      requires Forest(canon, root, dist) && |hypot| == |canon| && k < |types| && RefsBelow(types[k], |canon|)
      requires InRange(root, |canon|) && forall i :: 0 <= i < |root| ==> hypot[root[i]] <= MAX_ID
      modifies this`types
      ensures err == 0 && types == old(types)[k := Remapped(old(types)[k], root, hypot)]
    {
      ghost var t := types[k];
      var j := 0;
      while j < |types[k].refs|
        invariant |types| == |old(types)| && forall i :: 0 <= i < |types| && i != k ==> types[i] == old(types)[i]
        invariant SameShape(types[k], t) && 0 <= j <= |t.refs|
        invariant forall s :: 0 <= s < |t.refs| ==>
                    types[k].refs[s] == if s < j then hypot[root[t.refs[s]]] else t.refs[s]
      {
        var r := RemapTypeId(types[k].refs[j]);
        if r < 0 {
          return r;
        }
        types := types[k := types[k].(refs := types[k].refs[j := r])];
        j := j + 1;
      }
      assert types[k].refs == Remapped(t, root, hypot).refs;
      assert Shape(types[k]) == Shape(t) == Shape(Remapped(t, root, hypot));
      err := 0;
    }

    method RemapTypes() returns (err: int)
      requires Forest(canon, root, dist) && |hypot| == |canon| == |root| && InRange(root, |canon|)
      requires forall k :: 0 <= k < |types| ==> RefsBelow(types[k], |canon|)
      requires forall i :: 0 <= i < |root| ==> hypot[root[i]] <= MAX_ID
      modifies this`types
      ensures err == 0 && |types| == |old(types)|
      ensures forall k :: 0 < k < |types| ==> types[k] == Remapped(old(types)[k], root, hypot)
      ensures |types| > 0 ==> types[0] == old(types)[0]
    {
      hide Forest, RefsBelow, Remapped;
      var k := 1;
      while k < |types|
        invariant 1 <= k && |types| == |old(types)|
        invariant forall l :: 0 <= l < |types| ==>
                    RefsBelow(old(types)[l], |canon|) &&
                    types[l] == if 0 < l < k then Remapped(old(types)[l], root, hypot) else old(types)[l]
      {
        err := RemapType(k);
        if err < 0 {
          return;
        }
        k := k + 1;
      }
      err := 0;
    }

    // ----- the whole -----

    ghost predicate Fresh()
      reads this
    {
      && Core() && Clear() && exact == (noFwds || NoFwd(types))
      && (forall i :: 0 < i < |canon| ==> canon[i] == UNPROCESSED)
      && (forall b :: 0 <= b < |table| ==> table[b] == [])
    }

    /** Passes 2 to 6.  `hypot[root[i]]` is the id that input type `i` has in the output. */
    method Run() returns (err: int, ghost back: seq<nat>, ghost turns: seq<Turn>)
      requires Fresh()
      modifies this
      ensures err == if !AllKnown(old(types)) then -EINVAL else if HasRefCycle(old(types)) then -ELOOP else 0
      ensures err == 0 ==> IsOutput(old(types), root, hypot, back, types) && WfGraph(types)
      ensures Forest(canon, root, dist) && LinksTyped(old(types), canon, root) && (err == 0 ==> AllMapped(canon))
      ensures err == 0 ==> Numbering(canon, hypot, back, |canon|)
      ensures err == 0 && (noFwds || NoFwd(old(types))) ==>
                forall i: nat, k: nat :: i < |old(types)| ==>
                  Unfold(strs, types, hypot[root[i]], k) == Unfold(strs, old(types), i, k)
      ensures err == 0 ==> PassThree(strs, noFwds, noFwds || NoFwd(old(types)), old(types), turns)
      ensures err == 0 ==> Sizes(old(types), turns)
      ensures err == 0 ==> RootsStay(turns[|turns| - 1].m, turns[|turns| - 1].root, Ref())
      ensures err == 0 && (noFwds || NoFwd(old(types))) && NamesApart(strs, old(types)) ==>
                && (NoCopies(strs, types) <==> FwdsApart(strs, old(types)) && Unblocked(strs, old(types), turns))
                && (FwdsApart(strs, old(types)) && TwinFree(strs, old(types)) ==> NoCopies(strs, types))
    {
      hide NamesApart, NoFwd, NoCopies, FwdsApart, Unblocked, TwinFree, TurnsSoFar, RootsStay, PrimsOnly, PrimsDiffer,
           AllMapped;
      hide CanonOk, TableOk, PrimExact, NonRefsMapped, RefOk, Buckets, HasRefCycle, Stack, Forest, WfGraph, WfType,
           AllKnown, ListsRecorded, Unfold, IsOutput, Numbering, LinksTyped, Sound;
      ghost var g0 := types;
      back, turns := [], [];
      StartPrims(strs, exact, types, canon, root, dist, table);
      err := DedupPrimTypes();
      CoreTyped(strs, exact, types, canon, root, dist);
      if err < 0 {
        return;
      }
      CoreSizes(strs, exact, types, canon, root, dist, table);
      PrimsAreMapped(types, canon, table, Buckets(|table|));
      NothingListed(hypot, hypotList);
      err, turns := DedupStructTypes();
      TurnSizes(strs, noFwds, exact, types, turns);
      if err < 0 {
        return;
      }
      err := DedupRefTypes();
      RefTyped(strs, exact, g0, Buckets(|table|), Ref());
      if err < 0 {
        return;
      }
      ghost var s := Ref();
      err, back := LastPasses(g0);
      RootsStaySame(turns[|turns| - 1].m, turns[|turns| - 1].root, s, Ref());
      if exact && NamesApart(strs, g0) {
        NoCopiesIff(strs, noFwds, g0, turns, Buckets(|table|), s, hypot, back, types);
        if FwdsApart(strs, g0) && TwinFree(strs, g0) {
          TwinFreeIsUnblocked(strs, noFwds, g0, turns);
        }
      }
    }

    /** Passes 5 and 6. */
    method LastPasses(ghost g0: seq<BtfType>) returns (err: int, ghost back: seq<nat>)
      requires RefReady(g0, []) && AllMapped(canon) && |hypot| == |g0|
      modifies this`types, this`hypot
      ensures err == 0 && Numbering(canon, hypot, back, |canon|)
      ensures IsOutput(g0, root, hypot, back, types) && WfGraph(types)
      ensures exact ==>
                forall i: nat, k: nat :: i < |g0| ==>
                  Unfold(strs, types, hypot[root[i]], k) == Unfold(strs, g0, i, k)
    {
      hide RefOk, Buckets, Stack, Forest, WfGraph, WfType, Unfold, IsOutput, Numbering, LinksTyped, Sound, AllMapped,
           Remapped;
      ghost var s := Ref();
      ghost var bucket := Buckets(|table|);
      VoidInRange(strs, exact, g0, bucket, s);
      RefSizes(strs, exact, g0, bucket, s, 0);
      back := CompactTypes();
      ghost var packed := types;
      CompactedOk(strs, exact, g0, bucket, s, hypot, back, packed);
      err := RemapTypes();
      OutputReady(strs, exact, g0, bucket, s, hypot, back, packed, types);
      OutputWf(g0, root, hypot, back, types);
      OutputInRange(g0, root, hypot, back, types);
      if exact {
        forall i: nat, k: nat | i < |g0| ensures Unfold(strs, types, hypot[root[i]], k) == Unfold(strs, g0, i, k) {
          OutputMeans(strs, g0, root, hypot, back, types, i, k);
        }
      }
    }
  }
}
