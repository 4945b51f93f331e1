/** BTF type descriptors, the comparisons and signature hashes that the
    deduplicator uses on them, and what a descriptor graph means.

    A descriptor is kept decoded, in columns: `refs` holds every type-id field of
    the descriptor, `slotNames` the name offset of every enumerator, member or
    parameter, and `slotVals` every other per-slot word (INT encoding, ARRAY
    element count, enumerator value, member offset).  Module `BtfSection` relates
    this form to the words of the type section. */
module BtfTypes {
  import opened Common

  /** BTF_KIND_*; `OTHER` stands for the two codes that are not assigned. */
  datatype Kind =
    | UNKN | INT | PTR | ARRAY | STRUCT | UNION | ENUM | FWD | TYPEDEF
    | VOLATILE | CONST | RESTRICT | FUNC | FUNC_PROTO | OTHER(code: nat)

  /** The `info` word, split into its bit fields.  Two words are equal exactly when
      all the fields are; `spare` stands for the unused bits. */
  datatype Info = Info(kind: Kind, vlen: nat, kflag: bool, spare: nat)

  /** `size` is the size word of the kinds that have a size; the kinds whose third
      word is a type id keep it in `refs[0]`. */
  datatype BtfType = BtfType(nameOff: nat, info: Info, size: nat,
                             slotNames: seq<nat>, slotVals: seq<int>, refs: seq<nat>)

  const VOID := BtfType(0, Info(UNKN, 0, false, 0), 0, [], [], [])

  /** The kinds whose only type id is the third word of the descriptor. */
  predicate IsSingleRef(k: Kind) {
    k == PTR || k == TYPEDEF || k == VOLATILE || k == CONST || k == RESTRICT || k == FUNC
  }

  /** The kinds that pass 4 deduplicates. */
  predicate IsRef(k: Kind) {
    IsSingleRef(k) || k == ARRAY || k == FUNC_PROTO
  }

  predicate IsComposite(k: Kind) {
    k == STRUCT || k == UNION
  }

  /** The kinds that pass 2 deduplicates. */
  predicate IsPrim(k: Kind) {
    k == INT || k == ENUM || k == FWD
  }

  /** The kinds that `btf_type_size` and the passes know. */
  predicate KnownKind(k: Kind) {
    k != UNKN && !k.OTHER?
  }

  predicate HasTypeWord(k: Kind) {
    IsSingleRef(k) || k == FWD || k == FUNC_PROTO
  }

  /** How many slots and ids a descriptor has is fixed by its `info` word. */
  predicate WfType(t: BtfType) {
    var k, n := t.info.kind, t.info.vlen;
    && (HasTypeWord(k) ==> t.size == 0)
    && |t.slotNames| == (if k == ENUM || IsComposite(k) || k == FUNC_PROTO then n else 0)
    && |t.slotVals| == (if k == ENUM || IsComposite(k) then n else if k == INT || k == ARRAY then 1 else 0)
    && |t.refs| == (if IsSingleRef(k) || k == FWD then 1 else if k == ARRAY then 2
                    else if IsComposite(k) then n else if k == FUNC_PROTO then n + 1 else 0)
  }

  /** A type graph: id 0 is void, and every id a descriptor mentions is in range. */
  predicate WfGraph(g: seq<BtfType>) {
    && |g| > 0 && g[0] == VOID
    && forall i :: 0 <= i < |g| ==> WfType(g[i]) && RefsBelow(g[i], |g|)
  }

  predicate RefsBelow(t: BtfType, n: nat) {
    forall j :: 0 <= j < |t.refs| ==> t.refs[j] < n
  }

  /** Everything in a descriptor except the ids it mentions. */
  function Shape(t: BtfType): BtfType {
    t.(refs := [])
  }

  predicate SameShape(t: BtfType, u: BtfType) {
    Shape(t) == Shape(u) && |t.refs| == |u.refs|
  }

  // ----- comparisons (btf_equal_*, btf_compat_*, btf_shallow_equal_struct) -----

  /** The third word of a descriptor, `size` or `type`. */
  function Word(t: BtfType): nat
    requires WfType(t)
  {
    if HasTypeWord(t.info.kind) then t.refs[0] else t.size
  }

  predicate EqualCommon(t: BtfType, u: BtfType)
    requires WfType(t) && WfType(u)
  {
    t.nameOff == u.nameOff && t.info == u.info && Word(t) == Word(u)
  }

  predicate EqualInt(t: BtfType, u: BtfType)
    requires WfType(t) && WfType(u) && t.info.kind == INT
  {
    EqualCommon(t, u) && t.slotVals[0] == u.slotVals[0]
  }

  predicate EqualEnum(t: BtfType, u: BtfType)
    requires WfType(t) && WfType(u) && t.info.kind == ENUM
  {
    && EqualCommon(t, u)
    && forall j :: 0 <= j < t.info.vlen ==>
                     t.slotNames[j] == u.slotNames[j] && t.slotVals[j] == u.slotVals[j]
  }

  predicate ShallowEqualStruct(t: BtfType, u: BtfType)
    requires WfType(t) && WfType(u) && IsComposite(t.info.kind)
  {
    && EqualCommon(t, u)
    && forall j :: 0 <= j < t.info.vlen ==>
                     t.slotNames[j] == u.slotNames[j] && t.slotVals[j] == u.slotVals[j]
  }

  predicate EqualArray(t: BtfType, u: BtfType)
    requires WfType(t) && WfType(u) && t.info.kind == ARRAY
  {
    EqualCommon(t, u) && t.refs[0] == u.refs[0] && t.refs[1] == u.refs[1] && t.slotVals[0] == u.slotVals[0]
  }

  predicate CompatArray(t: BtfType, u: BtfType)
    requires WfType(t) && WfType(u) && t.info.kind == ARRAY
  {
    EqualCommon(t, u) && t.slotVals[0] == u.slotVals[0]
  }

  predicate EqualFnproto(t: BtfType, u: BtfType)
    requires WfType(t) && WfType(u) && t.info.kind == FUNC_PROTO
  {
    && EqualCommon(t, u)
    && forall j :: 0 <= j < t.info.vlen ==>
                     t.slotNames[j] == u.slotNames[j] && t.refs[j + 1] == u.refs[j + 1]
  }

  predicate CompatFnproto(t: BtfType, u: BtfType)
    requires WfType(t) && WfType(u) && t.info.kind == FUNC_PROTO
  {
    && t.nameOff == u.nameOff && t.info == u.info
    && forall j :: 0 <= j < t.info.vlen ==> t.slotNames[j] == u.slotNames[j]
  }

  /** The comparison that passes 2 and 4 make between a type and a candidate,
      chosen by the kind of the type. */
  predicate CandidateMatches(t: BtfType, cand: BtfType)
    requires WfType(t) && WfType(cand)
  {
    match t.info.kind
    case INT => EqualInt(t, cand)
    case ENUM => EqualEnum(t, cand)
    case ARRAY => EqualArray(t, cand)
    case FUNC_PROTO => EqualFnproto(t, cand)
    case _ => EqualCommon(t, cand)
  }

  /** Despite looking only at the fields of `t`'s own kind, and despite buckets that
      mix kinds, a candidate match is exact equality of descriptors. */
  lemma CandidateMatchIsEquality(t: BtfType, cand: BtfType)
    requires WfType(t) && WfType(cand)
    requires IsPrim(t.info.kind) || IsRef(t.info.kind)
    ensures CandidateMatches(t, cand) <==> t == cand
  {
    if CandidateMatches(t, cand) {
      assert t.slotNames == cand.slotNames;
      assert t.slotVals == cand.slotVals;
      if t.info.kind == FUNC_PROTO {
        forall j | 0 <= j < |t.refs| ensures t.refs[j] == cand.refs[j] {
          if j > 0 {
            assert t.slotNames[j - 1] == cand.slotNames[j - 1];
          }
        }
      }
      assert t.refs == cand.refs;
    }
  }

  // ----- signature hashes (hash_combine, btf_hash_*) -----

  function HashCombine(h: nat, value: int): (r: nat)
    ensures r < U32
  {
    (h * 37 + value * 0x9e370001) % U32
  }

  function HashCommon(t: BtfType): nat
    requires WfType(t)
  {
    HashCombine(HashCombine(HashCombine(0, t.nameOff), InfoWord(t.info)), Word(t))
  }

  /** The value of an `info` word. */
  function InfoWord(i: Info): nat {
    i.vlen + KindCode(i.kind) * 0x100_0000 + i.spare + (if i.kflag then 0x8000_0000 else 0)
  }

  function KindCode(k: Kind): nat {
    match k
    case UNKN => 0 case INT => 1 case PTR => 2 case ARRAY => 3 case STRUCT => 4
    case UNION => 5 case ENUM => 6 case FWD => 7 case TYPEDEF => 8 case VOLATILE => 9
    case CONST => 10 case RESTRICT => 11 case FUNC => 12 case FUNC_PROTO => 13
    case OTHER(c) => c
  }

  /** Folds a name column and a value column into a hash, slot by slot. */
  function HashSlots(h: nat, names: seq<nat>, vals: seq<int>): nat
    requires |names| == |vals|
    decreases |names|
  {
    if names == [] then h
    else HashSlots(HashCombine(HashCombine(h, names[0]), vals[0]), names[1..], vals[1..])
  }

  /** The signature hash the passes use for a type of this kind.  STRUCT and UNION
      leave the referenced ids out. */
  function SignatureHash(t: BtfType): nat
    requires WfType(t)
  {
    var h := HashCommon(t);
    match t.info.kind
    case INT => HashCombine(h, t.slotVals[0])
    case ENUM => HashSlots(h, t.slotNames, t.slotVals)
    case STRUCT => HashSlots(h, t.slotNames, t.slotVals)
    case UNION => HashSlots(h, t.slotNames, t.slotVals)
    case ARRAY => HashCombine(HashCombine(HashCombine(h, t.refs[0]), t.refs[1]), t.slotVals[0])
    case FUNC_PROTO => HashSlots(h, t.slotNames, t.refs[1..])
    case _ => h
  }

  // ----- meaning -----

  /** The NUL-terminated string at an offset of the string section. */
  function StrAt(strs: string, off: nat): string
    decreases |strs| - off
  {
    if off >= |strs| || strs[off] == '\0' then [] else [strs[off]] + StrAt(strs, off + 1)
  }

  /** The string offsets of a descriptor, in the order in which they are visited. */
  function NameOffs(t: BtfType): seq<nat> {
    [t.nameOff] + t.slotNames
  }

  /** What a single descriptor says, with its name offsets read as strings. */
  datatype Label = Label(name: string, info: Info, size: nat, slotNames: seq<string>, slotVals: seq<int>)

  function LabelOf(strs: string, t: BtfType): Label {
    Label(StrAt(strs, t.nameOff), t.info, t.size,
          seq(|t.slotNames|, j requires 0 <= j < |t.slotNames| => StrAt(strs, t.slotNames[j])), t.slotVals)
  }

  datatype Tree = Cut | Node(tag: Label, children: seq<Tree>)

  /** The type graph seen from `id`, unfolded into a tree of depth `k`.  Graphs may be
      cyclic; two ids mean the same exactly when their trees agree at every depth. */
  function Unfold(strs: string, g: seq<BtfType>, id: nat, k: nat): Tree
    requires WfGraph(g) && id < |g|
    decreases k
  {
    if k == 0 then Cut
    else
      Node(LabelOf(strs, g[id]),
           seq(|g[id].refs|, j requires 0 <= j < |g[id].refs| => Unfold(strs, g, g[id].refs[j], k - 1)))
  }

  ghost predicate Same(strs: string, g: seq<BtfType>, i: nat, j: nat)
    requires WfGraph(g) && i < |g| && j < |g|
  {
    forall k: nat :: Unfold(strs, g, i, k) == Unfold(strs, g, j, k)
  }

  lemma UnfoldZero(strs: string, g: seq<BtfType>, i: nat, strs': string, g': seq<BtfType>, i': nat)
    requires WfGraph(g) && WfGraph(g') && i < |g| && i' < |g'|
    ensures Unfold(strs, g, i, 0) == Unfold(strs', g', i', 0)
  {
  }

  /** Two nodes, perhaps of different graphs, unfold alike when their labels agree and
      their children unfold alike one level down. */
  lemma UnfoldNode(strs: string, g: seq<BtfType>, i: nat, strs': string, g': seq<BtfType>, i': nat, k: nat)
    requires WfGraph(g) && WfGraph(g') && i < |g| && i' < |g'| && k > 0
    requires LabelOf(strs, g[i]) == LabelOf(strs', g'[i']) && |g[i].refs| == |g'[i'].refs|
    requires forall j :: 0 <= j < |g[i].refs| ==>
                           Unfold(strs, g, g[i].refs[j], k - 1) == Unfold(strs', g', g'[i'].refs[j], k - 1)
    ensures Unfold(strs, g, i, k) == Unfold(strs', g', i', k)
  {
  }

  /** Nodes of equal shape whose children mean the same mean the same. */
  lemma SameByChildren(strs: string, g: seq<BtfType>, i: nat, j: nat)
    requires WfGraph(g) && i < |g| && j < |g|
    requires SameShape(g[i], g[j])
    requires forall s :: 0 <= s < |g[i].refs| ==> Same(strs, g, g[i].refs[s], g[j].refs[s])
    ensures Same(strs, g, i, j)
  {
  }

  lemma SameLabel(strs: string, t: BtfType, u: BtfType)
    requires SameShape(t, u)
    ensures LabelOf(strs, t) == LabelOf(strs, u)
  {
  }
}
