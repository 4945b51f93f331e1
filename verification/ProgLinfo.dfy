/** Line info of a JITed program: which records belong to which function, and which record
    covers an address. */
module ProgLinfo {
  import opened Common

  /** Records `start` to `end` are those of function `f`, and those of function `f + 1`
      follow: addresses rise strictly from `f`'s address on, the next function's address
      comes right after them and not before, and the bytes up to its last address, counted in 64
      bits, are no more than `f`'s length. */
  ghost predicate IsBlock(jited: seq<nat>, ksym: seq<nat>, lens: seq<nat>, start: nat, end: nat, f: nat)
    requires f + 1 < |ksym| == |lens|
  {
    && start < end < |jited| && jited[start] == ksym[f] && jited[end] == ksym[f + 1]
    && (forall i :: start < i < end ==> jited[i - 1] < jited[i] && jited[i] != ksym[f + 1])
    && (jited[end - 1] - ksym[f] + 1) % U64 <= lens[f]
  }

  /** `idx` splits the records into consecutive nonempty blocks, one per function.  Nothing
      is asked of the last block but where it starts. */
  ghost predicate IsSplit(jited: seq<nat>, ksym: seq<nat>, lens: seq<nat>, idx: seq<nat>) {
    && |idx| == |ksym| == |lens| > 0 && idx[0] == 0
    && (forall f :: 0 <= f < |idx| - 1 ==> IsBlock(jited, ksym, lens, idx[f], idx[f + 1], f))
    && idx[|idx| - 1] < |jited| && jited[idx[|idx| - 1]] == ksym[|idx| - 1]
  }

  /** Where the block of function `f` ends. */
  function BlockEnd(idx: seq<nat>, n: nat, f: nat): nat {
    if f + 1 < |idx| then idx[f + 1] else n
  }

  /** A record with an instruction offset; the other fields play no role in searching. */
  datatype LineInfo = LineInfo(insnOff: nat, rest: int)

  class Linfo {
    const linfo: seq<LineInfo>
    const jited: seq<nat>
    const nrFunc: nat
    const nrPerFunc: array<nat>
    const funcIdx: array<nat>

    constructor (linfo: seq<LineInfo>, jited: seq<nat>, nrFunc: nat)
      ensures this.linfo == linfo && this.jited == jited && this.nrFunc == nrFunc
      ensures nrPerFunc.Length == funcIdx.Length == nrFunc && fresh(nrPerFunc) && fresh(funcIdx) && nrPerFunc != funcIdx
    {
      this.linfo, this.jited, this.nrFunc := linfo, jited, nrFunc;
      nrPerFunc := new nat[nrFunc](_ => 0);
      funcIdx := new nat[nrFunc](_ => 0);
    }

    /** What a successful dissection leaves behind. */
    ghost predicate Dissected(ksym: seq<nat>, lens: seq<nat>)
      reads funcIdx, nrPerFunc
    {
      && nrPerFunc.Length == funcIdx.Length == nrFunc && IsSplit(jited, ksym, lens, funcIdx[..])
      && forall f :: 0 <= f < nrFunc ==> nrPerFunc[f] == BlockEnd(funcIdx[..], |jited|, f) - funcIdx[f]
    }

    /** `dissect_jited_func`. */
    method Dissect(ksym: seq<nat>, lens: seq<nat>) returns (err: int)
      requires |jited| > 0 && |ksym| == |lens| == nrFunc > 0
      requires nrPerFunc.Length == funcIdx.Length == nrFunc && nrPerFunc != funcIdx
      modifies nrPerFunc, funcIdx
      ensures err == if HasSplit(jited, ksym, lens) then 0 else -EINVAL
      ensures err == 0 ==> Dissected(ksym, lens)
    {
      hide Progress, IsSplit, HasSplit;
      Starts(jited, ksym, lens);
      if ksym[0] != jited[0] {
        return -EINVAL;
      }
      funcIdx[0] := 0;
      ghost var found := [0];
      var prev, i, f := 0, 1, 1;
      while i < |jited| && f < nrFunc
        invariant 1 <= i <= |jited| && 1 <= f == |found| <= nrFunc && prev == found[f - 1] < i
        invariant funcIdx[..f] == found && Progress(jited, ksym, lens, found, i)
        invariant forall g :: 0 <= g < f - 1 ==> nrPerFunc[g] == found[g + 1] - found[g]
      {
        Goes(jited, ksym, lens, found, i);
        var last := jited[i - 1];
        if ksym[f] == jited[i] {
          funcIdx[f] := i;
          if (last - ksym[f - 1] + 1) % U64 > lens[f - 1] {
            return -EINVAL;
          }
          nrPerFunc[f - 1] := i - prev;
          found := found + [i];
          prev := i;
          f := f + 1;
        } else if jited[i] <= last {
          return -EINVAL;
        }
        i := i + 1;
      }
      Ends(jited, ksym, lens, found, i);
      if f != nrFunc {
        return -EINVAL;
      }
      nrPerFunc[nrFunc - 1] := |jited| - prev;
      assert funcIdx[..] == found;
      return 0;
    }

    /** `bpf_prog_linfo__lfind_addr_func`: the index of the record, if any. */
    method LfindAddrFunc(addr: nat, f: nat, skip: nat, ghost ksym: seq<nat>, ghost lens: seq<nat>)
      returns (r: Option<nat>)
      requires Dissected(ksym, lens)
      ensures f >= nrFunc ==> r == None
      ensures f < nrFunc ==>
                var start, end := funcIdx[f], BlockEnd(funcIdx[..], |jited|, f);
                && start < end <= |jited| && r == Lookup(jited, start, end, skip, addr)
                && (f + 1 < nrFunc || NeverFalls(jited, start, end) ==> IsNearest(jited, start + skip, end, addr, r))
    {
      hide LastLeading, IsSplit, IsBlock, NeverFalls, IsNearest;
      if f < nrFunc {
        BlockInRange(jited, ksym, lens, funcIdx[..], f);
        BlockNeverFalls(jited, ksym, lens, funcIdx[..], f);
        LookupIsNearestIff(jited, funcIdx[f], BlockEnd(funcIdx[..], |jited|, f));
      }
      if f >= nrFunc {
        return None;
      }
      var n := nrPerFunc[f];
      if skip >= n {
        return None;
      }
      var start := funcIdx[f] + skip;
      if addr < jited[start] {
        return None;
      }
      var k := Scan(jited, start, n - skip, addr);
      return Some(k);
    }

    /** `bpf_prog_linfo__lfind`, by instruction offset. */
    method Lfind(insnOff: nat, skip: nat) returns (r: Option<nat>)
      ensures r == Lookup(InsnOffs(linfo), 0, |linfo|, skip, insnOff)
      ensures NeverFalls(InsnOffs(linfo), 0, |linfo|) ==> IsNearest(InsnOffs(linfo), skip, |linfo|, insnOff, r)
    {
      hide LastLeading, NeverFalls, IsNearest;
      LookupIsNearestIff(InsnOffs(linfo), 0, |linfo|);
      if skip >= |linfo| {
        return None;
      }
      if insnOff < linfo[skip].insnOff {
        return None;
      }
      var k := Scan(InsnOffs(linfo), skip, |linfo| - skip, insnOff);
      return Some(k);
    }
  }

  function InsnOffs(linfo: seq<LineInfo>): (r: seq<nat>)
    ensures |r| == |linfo| && forall i :: 0 <= i < |r| ==> r[i] == linfo[i].insnOff
  {
    seq(|linfo|, i requires 0 <= i < |linfo| => linfo[i].insnOff)
  }

  /** The search loop of both lookups: steps over records until one lies above the key, and
      returns the record before it. */
  method Scan(keys: seq<nat>, start: nat, n: nat, key: nat) returns (k: nat)
    requires n > 0 && start + n <= |keys| && keys[start] <= key
    ensures k == LastLeading(keys, start, start + n, key)
  {
    hide LastLeading;
    var i := 0;
    while i < n
      invariant 0 <= i <= n
      invariant forall j :: start <= j < start + i ==> keys[j] <= key
    {
      if key < keys[start + i] {
        break;
      }
      i := i + 1;
    }
    LastLeadingIs(keys, start, start + n, key, start + i - 1);
    return start + i - 1;
  }

  ghost predicate HasSplit(jited: seq<nat>, ksym: seq<nat>, lens: seq<nat>) {
    exists idx :: IsSplit(jited, ksym, lens, idx)
  }

  /** Any split starts with `found`, and its next block does not start before `i`. */
  ghost predicate OnlySplit(jited: seq<nat>, ksym: seq<nat>, lens: seq<nat>, found: seq<nat>, i: nat) {
    forall idx :: IsSplit(jited, ksym, lens, idx) ==> found <= idx && (|found| < |idx| ==> idx[|found|] >= i)
  }

  /** The search has found the starts `found` and looked at the records below `i`. */
  ghost predicate Progress(jited: seq<nat>, ksym: seq<nat>, lens: seq<nat>, found: seq<nat>, i: nat) {
    && 0 < |found| <= |ksym| == |lens| && found[0] == 0 && i <= |jited| && OnlySplit(jited, ksym, lens, found, i)
    && (forall f :: 0 <= f < |found| - 1 ==> IsBlock(jited, ksym, lens, found[f], found[f + 1], f))
    && var f, prev := |found|, found[|found| - 1];
    && prev < i && jited[prev] == ksym[f - 1]
    && (f < |ksym| ==> forall k :: prev < k < i ==> jited[k - 1] < jited[k] && jited[k] != ksym[f])
  }

  lemma Starts(jited: seq<nat>, ksym: seq<nat>, lens: seq<nat>)
    requires |jited| > 0 && |ksym| == |lens| > 0
    ensures if ksym[0] == jited[0] then Progress(jited, ksym, lens, [0], 1) else !HasSplit(jited, ksym, lens)
  {
    forall idx | IsSplit(jited, ksym, lens, idx)
      ensures ksym[0] == jited[0] && [0] <= idx && (1 < |idx| ==> idx[1] >= 1)
    {
      assert 1 < |idx| ==> IsBlock(jited, ksym, lens, idx[0], idx[1], 0);
    }
  }

  /** One turn of the search: the next start is found, there is no split, or it goes on. */
  lemma Goes(jited: seq<nat>, ksym: seq<nat>, lens: seq<nat>, found: seq<nat>, i: nat)
    requires Progress(jited, ksym, lens, found, i) && |found| < |ksym| && i < |jited|
    ensures i > 0 && |lens| == |ksym| && |found| > 0
    ensures var f := |found|;
            if ksym[f] == jited[i] then
              if (jited[i - 1] - ksym[f - 1] + 1) % U64 > lens[f - 1] then !HasSplit(jited, ksym, lens)
              else Progress(jited, ksym, lens, found + [i], i + 1)
            else if jited[i] <= jited[i - 1] then !HasSplit(jited, ksym, lens)
            else Progress(jited, ksym, lens, found, i + 1)
  {
    hide OnlySplit, HasSplit;
    NextBlock(jited, ksym, lens, found, i);
    var f := |found|;
    if ksym[f] == jited[i] && (jited[i - 1] - ksym[f - 1] + 1) % U64 <= lens[f - 1] {
      assert IsBlock(jited, ksym, lens, found[f - 1], i, f - 1);
    }
  }

  lemma Ends(jited: seq<nat>, ksym: seq<nat>, lens: seq<nat>, found: seq<nat>, i: nat)
    requires Progress(jited, ksym, lens, found, i)
    ensures |found| == |ksym| ==> IsSplit(jited, ksym, lens, found) && HasSplit(jited, ksym, lens)
    ensures |found| < |ksym| && i >= |jited| ==> !HasSplit(jited, ksym, lens)
  {
  }

  /** What the search finds at record `i` is forced on every split. */
  lemma NextBlock(jited: seq<nat>, ksym: seq<nat>, lens: seq<nat>, found: seq<nat>, i: nat)
    requires OnlySplit(jited, ksym, lens, found, i)
    requires 0 < |found| < |ksym| == |lens| && found[|found| - 1] < i < |jited|
    ensures var f := |found|;
            if ksym[f] == jited[i] then
              if (jited[i - 1] - ksym[f - 1] + 1) % U64 > lens[f - 1] then !HasSplit(jited, ksym, lens)
              else OnlySplit(jited, ksym, lens, found + [i], i + 1)
            else if jited[i] <= jited[i - 1] then !HasSplit(jited, ksym, lens)
            else OnlySplit(jited, ksym, lens, found, i + 1)
  {
    var f := |found|;
    forall idx | IsSplit(jited, ksym, lens, idx)
      ensures if ksym[f] == jited[i] then
                (jited[i - 1] - ksym[f - 1] + 1) % U64 <= lens[f - 1] && found + [i] <= idx
                && (f + 1 < |idx| ==> idx[f + 1] >= i + 1)
              else jited[i] > jited[i - 1] && found <= idx && idx[f] >= i + 1
    {
      assert found <= idx && idx[f - 1] == found[f - 1] && idx[f] >= i;
      assert IsBlock(jited, ksym, lens, idx[f - 1], idx[f], f - 1);
      assert f + 1 < |idx| ==> IsBlock(jited, ksym, lens, idx[f], idx[f + 1], f);
    }
  }

  lemma BlockInRange(jited: seq<nat>, ksym: seq<nat>, lens: seq<nat>, idx: seq<nat>, f: nat)
    requires IsSplit(jited, ksym, lens, idx) && f < |idx|
    ensures idx[f] < BlockEnd(idx, |jited|, f) <= |jited| && jited[idx[f]] == ksym[f]
  {
  }

  /** The last of the leading records, from `start` on, whose address is not above `addr`. */
  function LastLeading(jited: seq<nat>, start: nat, end: nat, addr: nat): (k: nat)
    requires start < end <= |jited| && jited[start] <= addr
    ensures start <= k < end && (forall j :: start <= j <= k ==> jited[j] <= addr)
    ensures (k + 1 < end ==> addr < jited[k + 1])
    decreases end - start
  {
    if start + 1 < end && jited[start + 1] <= addr then LastLeading(jited, start + 1, end, addr) else start
  }

  lemma {:induction false} LastLeadingIs(jited: seq<nat>, start: nat, end: nat, addr: nat, k: nat)
    requires start <= k < end <= |jited| && (forall j :: start <= j <= k ==> jited[j] <= addr)
    requires k + 1 < end ==> addr < jited[k + 1]
    ensures LastLeading(jited, start, end, addr) == k
    decreases end - start
  {
  }

  /** Addresses never fall between two records. */
  predicate NeverFalls(jited: seq<nat>, start: nat, end: nat)
    requires end <= |jited|
  {
    forall i :: start < i < end ==> jited[i - 1] <= jited[i]
  }

  lemma {:induction false} Ascends(jited: seq<nat>, start: nat, end: nat, j: nat, k: nat)
    requires end <= |jited| && NeverFalls(jited, start, end) && start <= j <= k < end
    ensures jited[j] <= jited[k]
    decreases k - j
  {
    if j < k {
      Ascends(jited, start, end, j, k - 1);
    }
  }

  /** What a lookup answers among the records `start` to `end`, of which it skips the first. */
  function Lookup(jited: seq<nat>, start: nat, end: nat, skip: nat, addr: nat): Option<nat>
    requires end <= |jited|
  {
    if start + skip >= end || addr < jited[start + skip] then None
    else Some(LastLeading(jited, start + skip, end, addr))
  }

  /** The right answer: the record with the greatest address not above `addr`, or none if all
      lie above it. */
  ghost predicate IsNearest(jited: seq<nat>, from: nat, end: nat, addr: nat, r: Option<nat>)
    requires end <= |jited|
  {
    match r
    case None => forall j :: from <= j < end ==> addr < jited[j]
    case Some(k) =>
      && from <= k < end && jited[k] <= addr
      && forall j :: from <= j < end && jited[j] <= addr ==> jited[j] <= jited[k]
  }

  /** Lookups among some records give the right answer, whatever they skip and search for,
      exactly when the addresses never fall. */
  lemma LookupIsNearestIff(jited: seq<nat>, start: nat, end: nat)
    requires end <= |jited|
    ensures (forall skip: nat, addr: nat ::
               IsNearest(jited, start + skip, end, addr, Lookup(jited, start, end, skip, addr)))
            <==> NeverFalls(jited, start, end)
  {
    hide LastLeading;
    if NeverFalls(jited, start, end) {
      forall skip: nat, addr: nat
        ensures IsNearest(jited, start + skip, end, addr, Lookup(jited, start, end, skip, addr))
      {
        LookupIsNearest(jited, start, end, skip, addr);
      }
    } else {
      var i :| start < i < end && jited[i] < jited[i - 1];
      var skip, addr := i - 1 - start, jited[i];
      assert !IsNearest(jited, start + skip, end, addr, Lookup(jited, start, end, skip, addr));
    }
  }

  lemma LookupIsNearest(jited: seq<nat>, start: nat, end: nat, skip: nat, addr: nat)
    requires end <= |jited| && NeverFalls(jited, start, end)
    ensures IsNearest(jited, start + skip, end, addr, Lookup(jited, start, end, skip, addr))
  {
    hide LastLeading, NeverFalls;
    var r, from := Lookup(jited, start, end, skip, addr), start + skip;
    forall j | from <= j < end
      ensures r.None? ==> addr < jited[j]
      ensures r.Some? && jited[j] <= addr ==> jited[j] <= jited[r.value]
    {
      Ascends(jited, start, end, from, j);
      if r.Some? && j <= r.value {
        Ascends(jited, start, end, j, r.value);
      } else if r.Some? {
        Ascends(jited, start, end, r.value + 1, j);
      }
    }
  }

  lemma BlockNeverFalls(jited: seq<nat>, ksym: seq<nat>, lens: seq<nat>, idx: seq<nat>, f: nat)
    requires IsSplit(jited, ksym, lens, idx) && f < |idx|
    ensures idx[f] < BlockEnd(idx, |jited|, f) <= |jited|
    ensures f + 1 < |idx| ==> NeverFalls(jited, idx[f], BlockEnd(idx, |jited|, f))
  {
    if f + 1 < |idx| {
      assert IsBlock(jited, ksym, lens, idx[f], idx[f + 1], f);
    }
  }

  /** The dissection accepts a last block whose addresses fall: here record 2, at address 3, is
      nearer to address 4 than record 0, which the search returns. */
  lemma LastBlockMayFail()
    ensures var jited, idx := [0, 5, 3], [0];
            && IsSplit(jited, [0], [8], idx) && !NeverFalls(jited, 0, BlockEnd(idx, 3, 0))
            && Lookup(jited, 0, BlockEnd(idx, 3, 0), 0, 4) == Some(0) && jited[0] < jited[2] <= 4
  {
    var jited := [0, 5, 3];
    assert jited[2] < jited[1];
  }
}
