/** The loader's linker: relocation records are classified, `.text` is appended to a
    program that calls into it, and calls and map loads are rewritten. */
module Linker {
  import opened Common

  const CALL := 0x85          // BPF_JMP | BPF_CALL
  const LD_IMM64 := 0x18      // BPF_LD | BPF_IMM | BPF_DW
  const PSEUDO_CALL := 1
  const PSEUDO_MAP_FD := 1
  const INSN_SIZE := 8
  const ERRNO_FORMAT := 4001
  const ERRNO_RELOC := 4005

  type s32 = x: int | -0x8000_0000 <= x < 0x8000_0000

  datatype Insn = Insn(code: nat, dst: nat, src: nat, off: int, imm: s32)

  /** ELF relocation records and symbols, as libelf hands them out. */
  datatype Rel = Rel(offset: nat, sym: nat)
  datatype Sym = Sym(shndx: int, value: nat)
  datatype BpfMap = BpfMap(offset: nat, fd: s32)

  datatype Reloc = RelocCall(idx: nat, textOff: nat) | RelocMap(idx: nat, mapIdx: nat)

  // ----- collecting relocations -----

  datatype Verdict = Good(reloc: Reloc) | Bad(errno: int)

  /** The first map at an offset. */
  function MapAt(maps: seq<BpfMap>, offset: nat, from: nat): (k: nat)
    requires from <= |maps|
    ensures from <= k <= |maps|
    ensures k < |maps| ==> maps[k].offset == offset
    ensures forall j :: from <= j < k ==> maps[j].offset != offset
    decreases |maps| - from
  {
    if from == |maps| || maps[from].offset == offset then from else MapAt(maps, offset, from + 1)
  }

  /** The instruction of a record whose symbol is acceptable is read without a bounds check, so
      it must be there. */
  predicate Readable(insns: seq<Insn>, rel: Rel, syms: seq<Sym>, textShndx: int, mapsShndx: int) {
    rel.sym < |syms| && (syms[rel.sym].shndx == mapsShndx || syms[rel.sym].shndx == textShndx) ==>
      rel.offset / INSN_SIZE < |insns|
  }

  /** What one relocation record becomes. */
  function Classify(insns: seq<Insn>, rel: Rel, syms: seq<Sym>, maps: seq<BpfMap>, textShndx: int,
                    mapsShndx: int): (v: Verdict)
    requires Readable(insns, rel, syms, textShndx, mapsShndx)
  {
    var idx := rel.offset / INSN_SIZE;
    if rel.sym >= |syms| then Bad(ERRNO_FORMAT)
    else if syms[rel.sym].shndx != mapsShndx && syms[rel.sym].shndx != textShndx then Bad(ERRNO_RELOC)
    else if insns[idx].code == CALL then
      if insns[idx].src != PSEUDO_CALL then Bad(ERRNO_RELOC) else Good(RelocCall(idx, syms[rel.sym].value))
    else if insns[idx].code != LD_IMM64 then Bad(ERRNO_RELOC)
    else
      var k := MapAt(maps, syms[rel.sym].value, 0);
      if k >= |maps| then Bad(ERRNO_RELOC) else Good(RelocMap(idx, k))
  }

  /** A relocation that agrees with the record it came from: a call stays at its place, and a
      map load names the first map at its symbol's offset. */
  ghost predicate Matches(insns: seq<Insn>, rel: Rel, syms: seq<Sym>, maps: seq<BpfMap>, r: Reloc) {
    && r.idx == rel.offset / INSN_SIZE < |insns| && rel.sym < |syms|
    && match r
       case RelocCall(idx, off) =>
         insns[idx].code == CALL && insns[idx].src == PSEUDO_CALL && off == syms[rel.sym].value
       case RelocMap(idx, k) =>
         && insns[idx].code == LD_IMM64 && k < |maps| && maps[k].offset == syms[rel.sym].value
         && forall j :: 0 <= j < k ==> maps[j].offset != syms[rel.sym].value
  }

  /** Which records are good, and which error the others give. */
  lemma ClassifyIff(insns: seq<Insn>, rel: Rel, syms: seq<Sym>, maps: seq<BpfMap>, textShndx: int, mapsShndx: int)
    requires Readable(insns, rel, syms, textShndx, mapsShndx)
    ensures var v := Classify(insns, rel, syms, maps, textShndx, mapsShndx);
            && (v.Good? <==>
                 && rel.sym < |syms| && (syms[rel.sym].shndx == mapsShndx || syms[rel.sym].shndx == textShndx)
                 && var x := insns[rel.offset / 8];
                    || (x.code == 0x85 && x.src == 1)
                    || (x.code == 0x18 && exists k :: 0 <= k < |maps| && maps[k].offset == syms[rel.sym].value))
            && (v == Bad(4001) <==> rel.sym >= |syms|) && (v.Bad? ==> v.errno == 4001 || v.errno == 4005)
            && (v.Good? && v.reloc.RelocCall? ==> insns[rel.offset / 8].code == 0x85)
  {
  }

  /** One turn of the loop of `bpf_program__collect_reloc`. */
  method ClassifyReloc(insns: seq<Insn>, rel: Rel, syms: seq<Sym>, maps: seq<BpfMap>, textShndx: int, mapsShndx: int)
    returns (v: Verdict)
    requires Readable(insns, rel, syms, textShndx, mapsShndx)
    ensures v == Classify(insns, rel, syms, maps, textShndx, mapsShndx)
    ensures v.Good? ==> Matches(insns, rel, syms, maps, v.reloc)
  {
    if rel.sym >= |syms| {
      return Bad(ERRNO_FORMAT);
    }
    var sym := syms[rel.sym];
    if sym.shndx != mapsShndx && sym.shndx != textShndx {
      return Bad(ERRNO_RELOC);
    }
    var idx := rel.offset / INSN_SIZE;
    if insns[idx].code == CALL {
      return if insns[idx].src != PSEUDO_CALL then Bad(ERRNO_RELOC) else Good(RelocCall(idx, sym.value));
    }
    if insns[idx].code != LD_IMM64 {
      return Bad(ERRNO_RELOC);
    }
    var k := 0;
    while k < |maps| && maps[k].offset != sym.value
      invariant 0 <= k <= |maps| && MapAt(maps, sym.value, 0) == MapAt(maps, sym.value, k)
    {
      k := k + 1;
    }
    return if k >= |maps| then Bad(ERRNO_RELOC) else Good(RelocMap(idx, k));
  }

  /** `bpf_program__collect_reloc`: all records are classified, or the first bad one is reported. */
  method CollectReloc(insns: seq<Insn>, rels: seq<Rel>, syms: seq<Sym>, maps: seq<BpfMap>, textShndx: int,
                      mapsShndx: int)
    returns (err: int, relocs: seq<Reloc>, pseudoCalls: bool)
    requires forall i :: 0 <= i < |rels| ==> Readable(insns, rels[i], syms, textShndx, mapsShndx)
    ensures err == 0 <==>
              forall i :: 0 <= i < |rels| ==> Classify(insns, rels[i], syms, maps, textShndx, mapsShndx).Good?
    ensures err == 0 ==>
              |relocs| == |rels| && forall i :: 0 <= i < |rels| ==> Matches(insns, rels[i], syms, maps, relocs[i])
    ensures err == 0 ==> (pseudoCalls <==> exists i :: 0 <= i < |relocs| && relocs[i].RelocCall?)
    ensures err != 0 ==>
              exists i :: 0 <= i < |rels| && Classify(insns, rels[i], syms, maps, textShndx, mapsShndx) == Bad(-err)
                          && forall j :: 0 <= j < i ==> Classify(insns, rels[j], syms, maps, textShndx, mapsShndx).Good?
  {
    relocs, pseudoCalls := [], false;
    var i := 0;
    while i < |rels|
      invariant 0 <= i <= |rels| && |relocs| == i
      invariant forall j :: 0 <= j < i ==> Classify(insns, rels[j], syms, maps, textShndx, mapsShndx) == Good(relocs[j])
      invariant forall j :: 0 <= j < i ==> Matches(insns, rels[j], syms, maps, relocs[j])
      invariant pseudoCalls <==> exists j :: 0 <= j < i && relocs[j].RelocCall?
    {
      var v := ClassifyReloc(insns, rels[i], syms, maps, textShndx, mapsShndx);
      if v.Bad? {
        return -v.errno, relocs, pseudoCalls;
      }
      relocs := relocs + [v.reloc];
      pseudoCalls := pseudoCalls || v.reloc.RelocCall?;
      i := i + 1;
    }
    err := 0;
  }

  // ----- relocating -----

  /** What a 32-bit signed field holds of a number. */
  function S32(x: int): (r: s32)
    ensures r == x <==> -0x8000_0000 <= x < 0x8000_0000
  {
    (x + 0x8000_0000) % 0x1_0000_0000 - 0x8000_0000
  }

  /** The rewritten instruction: a map load gets the map's fd, a call is made relative to
      the appended `.text`, which starts at `mainCnt`. */
  function Fixed(x: Insn, r: Reloc, maps: seq<BpfMap>, mainCnt: nat): Insn
    requires r.RelocMap? ==> r.mapIdx < |maps|
  {
    match r
    case RelocMap(_, k) => x.(src := PSEUDO_MAP_FD, imm := maps[k].fd)
    case RelocCall(idx, _) => x.(imm := S32(x.imm + mainCnt - idx))
  }

  predicate HasCall(relocs: seq<Reloc>) {
    exists j :: 0 <= j < |relocs| && relocs[j].RelocCall?
  }

  /** Calls are in the program, and maps exist.  Whether map loads are in the program is for
      `Relocate` to find out. */
  predicate RelocsOk(main: seq<Insn>, relocs: seq<Reloc>, maps: seq<BpfMap>) {
    forall j :: 0 <= j < |relocs| ==>
                  if relocs[j].RelocMap? then relocs[j].mapIdx < |maps| else relocs[j].idx < |main|
  }

  predicate OnePerInsn(relocs: seq<Reloc>) {
    forall j, k :: 0 <= j < k < |relocs| ==> relocs[j].idx != relocs[k].idx
  }

  predicate MapsExist(relocs: seq<Reloc>, maps: seq<BpfMap>) {
    forall j :: 0 <= j < |relocs| && relocs[j].RelocMap? ==> relocs[j].mapIdx < |maps|
  }

  /** The program with `text` behind it, if one of its first `n` relocations is a call. */
  function Joined(main: seq<Insn>, text: seq<Insn>, relocs: seq<Reloc>, n: nat): seq<Insn>
    requires n <= |relocs|
  {
    main + if HasCall(relocs[..n]) then text else []
  }

  /** The first `n` relocations lie in the program as it is when their turn comes. */
  ghost predicate InReach(main: seq<Insn>, text: seq<Insn>, relocs: seq<Reloc>, n: nat)
    requires n <= |relocs|
  {
    forall j :: 0 <= j < n ==> relocs[j].idx < |Joined(main, text, relocs, j)|
  }

  /** The first `n` relocations applied to `all`, one after the other. */
  function FixAll(all: seq<Insn>, mainCnt: nat, relocs: seq<Reloc>, maps: seq<BpfMap>, n: nat): (r: seq<Insn>)
    requires n <= |relocs| && MapsExist(relocs, maps)
    ensures |r| == |all|
  {
    if n == 0 then all
    else
      var prev, i := FixAll(all, mainCnt, relocs, maps, n - 1), relocs[n - 1].idx;
      if i < |prev| then prev[i := Fixed(prev[i], relocs[n - 1], maps, mainCnt)] else prev
  }

  /** `out` is `main`, followed by `text` if one of the first `n` relocations is a call, with
      these relocations applied. */
  ghost predicate Linked(main: seq<Insn>, text: seq<Insn>, relocs: seq<Reloc>, maps: seq<BpfMap>, out: seq<Insn>,
                         n: nat)
    requires RelocsOk(main, relocs, maps) && n <= |relocs|
  {
    InReach(main, text, relocs, n) && out == FixAll(Joined(main, text, relocs, n), |main|, relocs, maps, n)
  }

  class Program {
    var insns: seq<Insn>
    /** How long the program was before `.text` was appended; 0 while it was not. */
    var mainCnt: nat
    var relocs: seq<Reloc>
    const isText: bool

    constructor (insns: seq<Insn>, relocs: seq<Reloc>, isText: bool)
      ensures this.insns == insns && this.relocs == relocs && this.isText == isText && mainCnt == 0
    {
      this.insns, this.relocs, this.isText, mainCnt := insns, relocs, isText, 0;
    }

    /** `bpf_program__reloc_text`: appends `.text` the first time, then fixes the call. */
    method RelocText(relo: Reloc, text: Option<seq<Insn>>) returns (err: int)
      requires relo.idx < |insns|
      modifies this`insns, this`mainCnt
      ensures err == if relo.RelocCall? && !isText && (old(mainCnt) > 0 || text.Some?) then 0 else -ERRNO_RELOC
      ensures err == 0 ==> mainCnt == if old(mainCnt) == 0 then |old(insns)| else old(mainCnt)
      ensures err == 0 ==>
                var all := if old(mainCnt) == 0 then old(insns) + text.value else old(insns);
                insns == all[relo.idx := all[relo.idx].(imm := S32(all[relo.idx].imm + mainCnt - relo.idx))]
      ensures err != 0 ==> insns == old(insns) && mainCnt == old(mainCnt)
    {
      if !relo.RelocCall? {
        return -ERRNO_RELOC;
      }
      if isText {
        return -ERRNO_RELOC;
      }
      if mainCnt == 0 {
        if text.None? {
          return -ERRNO_RELOC;
        }
        mainCnt := |insns|;
        insns := insns + text.value;
      }
      var insn := insns[relo.idx];
      insns := insns[relo.idx := insn.(imm := S32(insn.imm + mainCnt - relo.idx))];
      return 0;
    }

    /** `bpf_program__relocate`, without the BTF.ext part. */
    method Relocate(maps: seq<BpfMap>, text: Option<seq<Insn>>) returns (err: int)
      requires RelocsOk(insns, relocs, maps) && mainCnt == 0
      modifies this
      ensures var txt := if text.Some? then text.value else [];
              err == if (HasCall(old(relocs)) && (isText || text.None?))
                     || !InReach(old(insns), txt, old(relocs), |old(relocs)|)
                     then -ERRNO_RELOC else 0
      ensures err == 0 ==> relocs == []
      ensures err == 0 ==> mainCnt == if HasCall(old(relocs)) then |old(insns)| else 0
      ensures err == 0 ==>
                Linked(old(insns), if text.Some? then text.value else [], old(relocs), maps, insns, |old(relocs)|)
    {
      hide Linked, InReach, HasCall;
      ghost var main, txt := insns, if text.Some? then text.value else [];
      LinkedNone(main, txt, relocs, maps);
      var i := 0;
      while i < |relocs|
        invariant 0 <= i <= |relocs| && relocs == old(relocs) && |insns| == |Joined(main, txt, relocs, i)|
        invariant Linked(main, txt, relocs, maps, insns, i)
        invariant HasCall(relocs[..i]) ==> !isText && text.Some?
        invariant mainCnt == if HasCall(relocs[..i]) then |main| else 0
      {
        OneMoreReloc(main, txt, relocs, i);
        if relocs[i].RelocMap? {
          var insnIdx, mapIdx := relocs[i].idx, relocs[i].mapIdx;
          if insnIdx >= |insns| {
            return -ERRNO_RELOC;
          }
          LinkedOne(main, txt, relocs, maps, insns, i);
          insns := insns[insnIdx := insns[insnIdx].(src := PSEUDO_MAP_FD, imm := maps[mapIdx].fd)];
        } else {
          LinkedOne(main, txt, relocs, maps, insns, i);
          err := RelocText(relocs[i], text);
          if err != 0 {
            return;
          }
        }
        i := i + 1;
      }
      assert relocs[..i] == relocs;
      AllInReach(main, txt, relocs, maps, insns);
      relocs := [];
      return 0;
    }
  }

  lemma LinkedNone(main: seq<Insn>, text: seq<Insn>, relocs: seq<Reloc>, maps: seq<BpfMap>)
    requires RelocsOk(main, relocs, maps)
    ensures Linked(main, text, relocs, maps, main, 0) && !HasCall(relocs[..0]) && Joined(main, text, relocs, 0) == main
  {
  }

  lemma OneMoreReloc(main: seq<Insn>, text: seq<Insn>, relocs: seq<Reloc>, n: nat)
    requires n < |relocs|
    ensures HasCall(relocs[..n + 1]) <==> HasCall(relocs[..n]) || relocs[n].RelocCall?
    ensures HasCall(relocs[..n + 1]) ==> HasCall(relocs)
    ensures relocs[n].idx >= |Joined(main, text, relocs, n)| ==> !InReach(main, text, relocs, |relocs|)
  {
  }

  lemma AllInReach(main: seq<Insn>, text: seq<Insn>, relocs: seq<Reloc>, maps: seq<BpfMap>, out: seq<Insn>)
    requires RelocsOk(main, relocs, maps) && Linked(main, text, relocs, maps, out, |relocs|)
    ensures InReach(main, text, relocs, |relocs|)
  {
  }

  /** One more relocation: the state before it, and what applying it gives. */
  lemma LinkedOne(main: seq<Insn>, text: seq<Insn>, relocs: seq<Reloc>, maps: seq<BpfMap>, out: seq<Insn>, n: nat)
    requires RelocsOk(main, relocs, maps) && n < |relocs| && Linked(main, text, relocs, maps, out, n)
    requires relocs[n].idx < |Joined(main, text, relocs, n)|
    ensures |out| == |Joined(main, text, relocs, n)|
    ensures var all := if relocs[n].RelocCall? && !HasCall(relocs[..n]) then out + text else out;
            var i := relocs[n].idx;
            && |all| == |Joined(main, text, relocs, n + 1)|
            && Linked(main, text, relocs, maps, all[i := Fixed(all[i], relocs[n], maps, |main|)], n + 1)
  {
    hide HasCall, FixAll;
    OneMoreReloc(main, text, relocs, n);
    var before, after := Joined(main, text, relocs, n), Joined(main, text, relocs, n + 1);
    FixNext(after, |main|, relocs, maps, n);
    if relocs[n].RelocCall? && !HasCall(relocs[..n]) {
      assert after == before + text;
      forall j | 0 <= j < n ensures relocs[j].idx < |before| {
        JoinedGrows(main, text, relocs, j, n);
      }
      FixGrows(before, text, |main|, relocs, maps, n);
    } else {
      assert after == before;
    }
  }

  lemma JoinedGrows(main: seq<Insn>, text: seq<Insn>, relocs: seq<Reloc>, j: nat, n: nat)
    requires j <= n <= |relocs|
    ensures |Joined(main, text, relocs, j)| <= |Joined(main, text, relocs, n)|
  {
    assert forall k :: 0 <= k < j ==> relocs[..j][k] == relocs[..n][k];
  }

  lemma FixNext(all: seq<Insn>, mainCnt: nat, relocs: seq<Reloc>, maps: seq<BpfMap>, n: nat)
    requires n < |relocs| && MapsExist(relocs, maps) && relocs[n].idx < |all|
    ensures var prev, i := FixAll(all, mainCnt, relocs, maps, n), relocs[n].idx;
            FixAll(all, mainCnt, relocs, maps, n + 1) == prev[i := Fixed(prev[i], relocs[n], maps, mainCnt)]
  {
  }

  /** Appending `.text` does not disturb what has been fixed. */
  lemma {:induction false} FixGrows(all: seq<Insn>, text: seq<Insn>, mainCnt: nat, relocs: seq<Reloc>,
                                    maps: seq<BpfMap>, n: nat)
    requires n <= |relocs| && MapsExist(relocs, maps) && forall j :: 0 <= j < n ==> relocs[j].idx < |all|
    ensures FixAll(all + text, mainCnt, relocs, maps, n) == FixAll(all, mainCnt, relocs, maps, n) + text
    decreases n
  {
    if n > 0 {
      FixGrows(all, text, mainCnt, relocs, maps, n - 1);
    }
  }

  /** With one relocation per instruction, exactly the instructions of relocations change, and
      each of them as its relocation says. */
  lemma {:induction false} FixedAt(all: seq<Insn>, mainCnt: nat, relocs: seq<Reloc>, maps: seq<BpfMap>, n: nat, i: nat)
    requires n <= |relocs| && MapsExist(relocs, maps) && OnePerInsn(relocs) && i < |all|
    ensures var x := FixAll(all, mainCnt, relocs, maps, n)[i];
            && (forall j :: 0 <= j < n && relocs[j].idx == i ==> x == Fixed(all[i], relocs[j], maps, mainCnt))
            && ((forall j :: 0 <= j < n ==> relocs[j].idx != i) ==> x == all[i])
    decreases n
  {
    if n > 0 {
      FixedAt(all, mainCnt, relocs, maps, n - 1, i);
    }
  }

  // ----- what linking means -----

  /** What an instruction other than a call between sections does to the machine state: go
      on, `delta` instructions further than the next one, or return from the function. */
  datatype Outcome<D> = Go(d: D, delta: int) | Return(d: D)

  /** A place in a two-section program. */
  datatype Place = Place(inText: bool, pc: int)

  datatype Source<D> = Running(at: Place, stack: seq<Place>, d: D) | Stopped(d: D)
  datatype Target<D> = Executing(pc: int, calls: seq<int>, data: D) | Done(data: D)

  predicate IsLocalCall(x: Insn) {
    x.code == CALL && x.src == PSEUDO_CALL
  }

  /** The relocation at an instruction of the main program, if any. */
  function RelocAt(relocs: seq<Reloc>, i: int, from: nat): (r: Option<Reloc>)
    requires from <= |relocs|
    ensures r.Some? ==> r.value in relocs && r.value.idx == i
    ensures r.None? ==> forall j :: from <= j < |relocs| ==> relocs[j].idx != i
    decreases |relocs| - from
  {
    if from == |relocs| then None
    else if relocs[from].idx == i then Some(relocs[from]) else RelocAt(relocs, i, from + 1)
  }

  /** The program as the compiler wrote it: two sections and the relocations of the first.
      A relocated call goes to `.text` index `imm + 1`; a relocated load loads its map. */
  datatype Object = Object(main: seq<Insn>, text: seq<Insn>, relocs: seq<Reloc>, maps: seq<BpfMap>)

  predicate InCode(o: Object, p: Place) {
    0 <= p.pc < if p.inText then |o.text| else |o.main|
  }

  /** The relocations are those that were collected: one per instruction, calls on local calls,
      maps on loads, and the distance of every call into `.text` fits its 32-bit field. */
  predicate WfObject(o: Object) {
    && RelocsOk(o.main, o.relocs, o.maps) && OnePerInsn(o.relocs)
    && forall j :: 0 <= j < |o.relocs| ==>
         o.relocs[j].idx < |o.main| &&
         if o.relocs[j].RelocCall? then
           IsLocalCall(o.main[o.relocs[j].idx]) &&
           -0x8000_0000 <= o.main[o.relocs[j].idx].imm + |o.main| - o.relocs[j].idx < 0x8000_0000
         else o.main[o.relocs[j].idx].code == LD_IMM64
  }

  /** What `CollectReloc` gathers from a section with one record per instruction is such an
      object, and none of its relocations is out of reach. */
  lemma CollectedIsWf(o: Object, rels: seq<Rel>, syms: seq<Sym>)
    requires |o.relocs| == |rels| && forall i :: 0 <= i < |rels| ==> Matches(o.main, rels[i], syms, o.maps, o.relocs[i])
    requires forall i, j :: 0 <= i < j < |rels| ==> rels[i].offset / INSN_SIZE != rels[j].offset / INSN_SIZE
    requires forall j :: 0 <= j < |o.relocs| && o.relocs[j].RelocCall? && o.relocs[j].idx < |o.main| ==>
               -0x8000_0000 <= o.main[o.relocs[j].idx].imm + |o.main| - o.relocs[j].idx < 0x8000_0000
    ensures WfObject(o) && InReach(o.main, o.text, o.relocs, |o.relocs|)
  {
  }

  function SourceStep<D>(o: Object, exec: (Insn, D) -> Outcome<D>, s: Source<D>): Source<D>
    requires s.Running? && InCode(o, s.at) && WfObject(o)
  {
    var x := if s.at.inText then o.text[s.at.pc] else o.main[s.at.pc];
    var r := if s.at.inText then None else RelocAt(o.relocs, s.at.pc, 0);
    var back := s.at.(pc := s.at.pc + 1);
    if r.Some? && r.value.RelocCall? then Running(Place(true, x.imm + 1), s.stack + [back], s.d)
    else if IsLocalCall(x) then Running(s.at.(pc := s.at.pc + 1 + x.imm), s.stack + [back], s.d)
    else
      match exec(if r.Some? then x.(src := PSEUDO_MAP_FD, imm := o.maps[r.value.mapIdx].fd) else x, s.d)
      case Go(d, delta) => Running(s.at.(pc := s.at.pc + 1 + delta), s.stack, d)
      case Return(d) =>
        if s.stack == [] then Stopped(d) else Running(s.stack[|s.stack| - 1], s.stack[..|s.stack| - 1], d)
  }

  /** The linked program: one section, calls relative to the next instruction. */
  function TargetStep<D>(prog: seq<Insn>, exec: (Insn, D) -> Outcome<D>, t: Target<D>): Target<D>
    requires t.Executing? && 0 <= t.pc < |prog|
  {
    var x := prog[t.pc];
    if IsLocalCall(x) then Executing(t.pc + 1 + x.imm, t.calls + [t.pc + 1], t.data)
    else
      match exec(x, t.data)
      case Go(d, delta) => Executing(t.pc + 1 + delta, t.calls, d)
      case Return(d) =>
        if t.calls == [] then Done(d) else Executing(t.calls[|t.calls| - 1], t.calls[..|t.calls| - 1], d)
  }

  /** Index k of `.text` becomes index `mainCnt + k`; the main program stays where it is. */
  function Address(o: Object, p: Place): int {
    if p.inText then |o.main| + p.pc else p.pc
  }

  function Image<D>(o: Object, s: Source<D>): Target<D> {
    match s
    case Stopped(d) => Done(d)
    case Running(at, stack, d) =>
      Executing(Address(o, at), seq(|stack|, i requires 0 <= i < |stack| => Address(o, stack[i])), d)
  }

  ghost predicate IsLinked(o: Object, prog: seq<Insn>) {
    WfObject(o) && Linked(o.main, o.text, o.relocs, o.maps, prog, |o.relocs|)
  }

  lemma RelocAtFinds(o: Object, i: nat)
    requires WfObject(o) && i < |o.main|
    ensures var r := RelocAt(o.relocs, i, 0);
            if r.Some? then exists j :: 0 <= j < |o.relocs| && o.relocs[j] == r.value && o.relocs[j].idx == i
            else forall j :: 0 <= j < |o.relocs| ==> o.relocs[j].idx != i
  {
  }

  /** The instruction that the linked program holds for a place of the two sections. */
  lemma LinkedInsn(o: Object, prog: seq<Insn>, p: Place)
    requires IsLinked(o, prog) && InCode(o, p) && (p.inText ==> HasCall(o.relocs))
    ensures 0 <= Address(o, p) < |prog|
    ensures p.inText ==> prog[Address(o, p)] == o.text[p.pc]
    ensures !p.inText ==>
              var r := RelocAt(o.relocs, p.pc, 0);
              prog[p.pc] == if r.Some? then Fixed(o.main[p.pc], r.value, o.maps, |o.main|) else o.main[p.pc]
  {
    hide HasCall, RelocAt, FixAll;
    var n := |o.relocs|;
    assert o.relocs[..n] == o.relocs;
    var all, a := Joined(o.main, o.text, o.relocs, n), Address(o, p);
    assert all[a] == if p.inText then o.text[p.pc] else o.main[p.pc];
    FixedAt(all, |o.main|, o.relocs, o.maps, n, a);
    if !p.inText {
      RelocAtFinds(o, p.pc);
    }
  }

  lemma LinkedIsLonger(o: Object, prog: seq<Insn>)
    requires IsLinked(o, prog)
    ensures |o.main| <= |prog|
  {
  }

  /** Every map load of the linked program gets the fd of its map, and nothing else of it
      changes. */
  lemma LoadGetsFd(o: Object, prog: seq<Insn>, j: nat)
    requires IsLinked(o, prog) && j < |o.relocs| && o.relocs[j].RelocMap?
    ensures var (i, k) := (o.relocs[j].idx, o.relocs[j].mapIdx);
            && i < |o.main| <= |prog| && k < |o.maps|
            && prog[i] == o.main[i].(src := 1, imm := o.maps[k].fd)
  {
    hide Linked;
    LinkedIsLonger(o, prog);
    LinkedInsn(o, prog, Place(false, o.relocs[j].idx));
    RelocAtFinds(o, o.relocs[j].idx);
  }

  /** From the record to the program: the load at the record's offset holds the fd of the first
      map at the offset of the record's symbol. */
  lemma CollectedLoadGetsFd(o: Object, prog: seq<Insn>, rels: seq<Rel>, syms: seq<Sym>, j: nat)
    requires IsLinked(o, prog) && |o.relocs| == |rels| && j < |rels|
    requires Matches(o.main, rels[j], syms, o.maps, o.relocs[j]) && o.relocs[j].RelocMap?
    ensures rels[j].offset / 8 < |prog| && rels[j].sym < |syms|
    ensures exists k :: 0 <= k < |o.maps| && o.maps[k].offset == syms[rels[j].sym].value
                        && (forall l :: 0 <= l < k ==> o.maps[l].offset != o.maps[k].offset)
                        && prog[rels[j].offset / 8].imm == o.maps[k].fd
  {
    hide IsLinked;
    LoadGetsFd(o, prog, j);
  }

  /** Every call into `.text` is moved by the length of the program and its own index. */
  lemma CallIsMoved(o: Object, prog: seq<Insn>, j: nat)
    requires IsLinked(o, prog) && j < |o.relocs| && o.relocs[j].RelocCall?
    ensures var i := o.relocs[j].idx;
            && i < |o.main| <= |prog| && o.main[i].src == 1
            && prog[i].imm == o.main[i].imm + |o.main| - i && prog[i] == o.main[i].(imm := prog[i].imm)
  {
    hide Linked;
    LinkedIsLonger(o, prog);
    LinkedInsn(o, prog, Place(false, o.relocs[j].idx));
    RelocAtFinds(o, o.relocs[j].idx);
  }

  /** A relocated call to `.text` index k lands at `mainCnt + k` exactly when the distance
      fits the 32-bit field; otherwise it wraps around. */
  lemma CallLandsIff(x: Insn, r: Reloc, maps: seq<BpfMap>, mainCnt: nat)
    requires r.RelocCall?
    ensures var k := x.imm + 1;
            r.idx + 1 + Fixed(x, r, maps, mainCnt).imm == mainCnt + k <==>
            -0x8000_0000 <= x.imm + mainCnt - r.idx < 0x8000_0000
  {
  }

  /** The failing family is not empty: the farthest call that its field can hold, from the
      start of a program of one instruction, goes backwards once it is relocated. */
  lemma FarCallWraps(maps: seq<BpfMap>)
    ensures var x := Insn(CALL, 0, PSEUDO_CALL, 0, 0x7fff_ffff);
            var y := Fixed(x, RelocCall(0, 0), maps, 1);
            y.imm == -0x8000_0000 && 1 + y.imm != 1 + (x.imm + 1)
  {
  }

  /** Control is in `.text` only if some call goes there. */
  ghost predicate Sane<D>(o: Object, s: Source<D>) {
    s.Running? ==>
      && (s.at.inText ==> HasCall(o.relocs))
      && forall i :: 0 <= i < |s.stack| && s.stack[i].inText ==> HasCall(o.relocs)
  }

  lemma StepSane<D>(o: Object, exec: (Insn, D) -> Outcome<D>, s: Source<D>)
    requires WfObject(o) && s.Running? && InCode(o, s.at) && Sane(o, s)
    ensures Sane(o, SourceStep(o, exec, s))
  {
  }

  /** One step of the two-section program is one step of the linked program. */
  lemma StepSimulates<D>(o: Object, prog: seq<Insn>, exec: (Insn, D) -> Outcome<D>, s: Source<D>)
    requires IsLinked(o, prog) && s.Running? && InCode(o, s.at) && Sane(o, s)
    ensures 0 <= Address(o, s.at) < |prog|
    ensures TargetStep(prog, exec, Image(o, s)) == Image(o, SourceStep(o, exec, s))
  {
    hide Linked, RelocsOk, HasCall;
    LinkedInsn(o, prog, s.at);
    var s', t := SourceStep(o, exec, s), Image(o, s);
    var t' := TargetStep(prog, exec, t);
    if s'.Running? {
      assert t'.calls == Image(o, s').calls;
    }
  }

  /** The two-section program stays inside its sections for `n` steps, or stops before. */
  ghost predicate StaysInCode<D>(o: Object, exec: (Insn, D) -> Outcome<D>, s: Source<D>, n: nat)
    requires WfObject(o)
    decreases n
  {
    n == 0 || s.Stopped? || (InCode(o, s.at) && StaysInCode(o, exec, SourceStep(o, exec, s), n - 1))
  }

  ghost function RunSource<D>(o: Object, exec: (Insn, D) -> Outcome<D>, s: Source<D>, n: nat): Source<D>
    requires WfObject(o) && StaysInCode(o, exec, s, n)
    decreases n
  {
    if n == 0 || s.Stopped? then s else RunSource(o, exec, SourceStep(o, exec, s), n - 1)
  }

  /** `None` if the program counter leaves the program. */
  ghost function RunTarget<D>(prog: seq<Insn>, exec: (Insn, D) -> Outcome<D>, t: Target<D>, n: nat): Option<Target<D>>
    decreases n
  {
    if n == 0 || t.Done? then Some(t)
    else if 0 <= t.pc < |prog| then RunTarget(prog, exec, TargetStep(prog, exec, t), n - 1)
    else None
  }

  /** Linking preserves behaviour: for any meaning of the other instructions and any number
      of steps, the linked program runs as the two-section program does. */
  lemma {:induction false} LinkedRunSimulates<D>(o: Object, prog: seq<Insn>, exec: (Insn, D) -> Outcome<D>,
                                                 s: Source<D>, n: nat)
    requires IsLinked(o, prog) && Sane(o, s) && StaysInCode(o, exec, s, n)
    ensures RunTarget(prog, exec, Image(o, s), n) == Some(Image(o, RunSource(o, exec, s, n)))
    decreases n
  {
    hide WfObject, Linked, Sane, InCode, SourceStep, TargetStep;
    if n > 0 && s.Running? {
      StepSane(o, exec, s);
      StepSimulates(o, prog, exec, s);
      LinkedRunSimulates(o, prog, exec, SourceStep(o, exec, s), n - 1);
    }
  }
}
