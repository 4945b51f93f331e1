/** The local comparison inside `btf_dedup_is_equiv`: what two descriptors say before
    any of the ids they mention is followed. */
module EquivCheck {
  import opened BtfTypes
  import opened CanonMap
  import opened HypotMap

  /** `Children`: equal so far, and the referenced types decide. */
  datatype Verdict = Differ | Agree | Children | BadKind

  function CompareTypes(noFwds: bool, cand: BtfType, canon: BtfType): Verdict
    requires WfType(cand) && WfType(canon)
  {
    var candKind, canonKind := cand.info.kind, canon.info.kind;
    if cand.nameOff != canon.nameOff then Differ
    else if !noFwds && (candKind == FWD || canonKind == FWD) && candKind != canonKind then
      var realKind := if candKind == FWD then canonKind else candKind;
      var fwdKind := if candKind == FWD then DeclaredKind(cand) else DeclaredKind(canon);
      if fwdKind == realKind then Agree else Differ
    else if cand.info != canon.info then Differ
    else
      match candKind
      case INT => if EqualInt(cand, canon) then Agree else Differ
      case ENUM => if EqualEnum(cand, canon) then Agree else Differ
      case FWD => if EqualCommon(cand, canon) then Agree else Differ
      case ARRAY => if CompatArray(cand, canon) then Children else Differ
      case STRUCT => if ShallowEqualStruct(cand, canon) then Children else Differ
      case UNION => if ShallowEqualStruct(cand, canon) then Children else Differ
      case FUNC_PROTO => if CompatFnproto(cand, canon) then Children else Differ
      case UNKN => BadKind
      case OTHER(_) => BadKind
      case _ => Children
  }

  /** Arrays are followed index type first, the other kinds slot by slot. */
  function VisitSlot(t: BtfType, j: nat): (s: nat)
    requires WfType(t) && j < |t.refs|
    ensures s < |t.refs|
    ensures j == (if t.info.kind == ARRAY then 1 - s else s)
  {
    if t.info.kind == ARRAY then 1 - j else j
  }

  /** A verdict settles the shape of both descriptors, and `Agree` also their ids. */
  lemma VerdictIsShape(noFwds: bool, cand: BtfType, canon: BtfType)
    requires WfType(cand) && WfType(canon)
    ensures CompareTypes(noFwds, cand, canon) == Children ==> SameShape(cand, canon) && !IsPrim(canon.info.kind)
    ensures CompareTypes(noFwds, cand, canon) == Agree ==>
              (!noFwds && FwdPair(cand, canon)) || cand == canon
    ensures CompareTypes(noFwds, cand, canon) != Differ ==> cand.nameOff == canon.nameOff
    ensures CompareTypes(noFwds, cand, canon) == BadKind ==> cand.info == canon.info && !KnownKind(cand.info.kind)
  {
    var v := CompareTypes(noFwds, cand, canon);
    if v == Agree && cand.info == canon.info {
      CandidateMatchIsEquality(cand, canon);
    } else if v == Children {
      assert cand.slotNames == canon.slotNames && cand.slotVals == canon.slotVals;
    }
  }

  /** And descriptors that differ cannot be a closed pair. */
  lemma DifferIsHopeless(noFwds: bool, g: seq<BtfType>, root: seq<nat>, h0: seq<nat>, a: nat, c: nat)
    requires WfGraph(g) && |g| == |root| == |h0| && InRange(root, |g|) && |g| <= MAX_ID + 1 && a < |g| && c < |g|
    requires !Recorded(h0, c) && CompareTypes(noFwds, g[a], g[c]) == Differ
    ensures HopelessPair(noFwds, g, root, h0, a, c)
  {
    hide CompareTypes, Related;
    forall s | Solves(noFwds, g, root, h0, s) ensures s[c] != a {
      if s[c] == a {
        assert PairClosed(noFwds, g, root, s, c);
        MatchIsNotDiffer(noFwds, g[a], g[c]);
        assert false;
      }
    }
  }

  lemma MatchIsNotDiffer(noFwds: bool, a: BtfType, b: BtfType)
    requires WfType(a) && WfType(b) && a.nameOff == b.nameOff
    requires (!noFwds && FwdPair(a, b)) || (SameShape(a, b) && (IsPrim(b.info.kind) ==> a == b))
    ensures CompareTypes(noFwds, a, b) != Differ
  {
    if SameShape(a, b) {
      var s, t := Shape(a), Shape(b);
      assert a.info == s.info == b.info && a.size == s.size == b.size;
      assert a.slotNames == s.slotNames == b.slotNames && a.slotVals == s.slotVals == b.slotVals;
    }
  }

}
