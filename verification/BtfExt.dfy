/** The `.BTF.ext` info sections: sections of records, each under a header that names an
    ELF section and counts its records. */
module BtfExt {
  import opened Common
  import opened Bits
  import opened Memory

  const SEC_HDR := 8

  /** The number of records that the header at `p` announces. */
  function NumInfo(b: seq<byte>, p: nat): u32
    requires p + SEC_HDR <= |b|
  {
    ReadWord(b, p + 4)
  }

  /** The bytes that the section at `p` takes, its header included. */
  function SecSize(b: seq<byte>, p: nat, rec: nat): (r: nat)
    requires p + SEC_HDR <= |b|
    ensures r >= SEC_HDR
  {
    SEC_HDR + NumInfo(b, p) * rec
  }

  /** Sections, each with at least one record, fill `left` bytes from `p` on exactly. */
  predicate Tiles(b: seq<byte>, p: nat, rec: nat, left: nat)
    requires p + left <= |b|
    decreases left
  {
    left == 0
    || (left >= SEC_HDR && NumInfo(b, p) > 0 && SecSize(b, p, rec) <= left
        && Tiles(b, p + SecSize(b, p, rec), rec, left - SecSize(b, p, rec)))
  }

  /** Where the sections start. */
  function Starts(b: seq<byte>, p: nat, rec: nat, left: nat): seq<nat>
    requires p + left <= |b| && Tiles(b, p, rec, left)
    decreases left
  {
    if left == 0 then [] else [p] + Starts(b, p + SecSize(b, p, rec), rec, left - SecSize(b, p, rec))
  }

  /** `starts` are sections back to back from `p` to `end`: each is a name, a nonzero number of
      records, and the records. */
  predicate BackToBack(b: seq<byte>, starts: seq<nat>, p: nat, rec: nat, end: nat)
    requires end <= |b|
    decreases |starts|
  {
    if starts == [] then p == end
    else
      && starts[0] == p && p + 8 <= end && ReadWord(b, p + 4) > 0
      && BackToBack(b, starts[1..], p + 8 + ReadWord(b, p + 4) * rec, rec, end)
  }

  /** What is tiled is exactly what such sections fill. */
  lemma {:induction false} TilesIff(b: seq<byte>, p: nat, rec: nat, end: nat)
    requires p <= end <= |b|
    ensures Tiles(b, p, rec, end - p) ==> BackToBack(b, Starts(b, p, rec, end - p), p, rec, end)
    ensures (exists starts :: BackToBack(b, starts, p, rec, end)) ==> Tiles(b, p, rec, end - p)
    decreases end - p
  {
    hide ReadWord;
    if Tiles(b, p, rec, end - p) && p < end {
      TilesIff(b, p + SecSize(b, p, rec), rec, end);
    }
    if starts :| BackToBack(b, starts, p, rec, end) {
      FilledIsTiled(b, starts, p, rec, end);
    }
  }

  lemma {:induction false} FilledIsTiled(b: seq<byte>, starts: seq<nat>, p: nat, rec: nat, end: nat)
    requires p <= end <= |b| && BackToBack(b, starts, p, rec, end)
    ensures Tiles(b, p, rec, end - p)
    decreases |starts|
  {
    hide ReadWord;
    if starts != [] {
      var n := 8 + ReadWord(b, p + 4) * rec;
      NeverBeyond(b, starts[1..], p + n, rec, end);
      FilledIsTiled(b, starts[1..], p + n, rec, end);
    }
  }

  lemma {:induction false} NeverBeyond(b: seq<byte>, starts: seq<nat>, p: nat, rec: nat, end: nat)
    requires end <= |b| && BackToBack(b, starts, p, rec, end)
    ensures p <= end
    decreases |starts|
  {
    hide ReadWord;
    if starts != [] {
      NeverBeyond(b, starts[1..], p + 8 + ReadWord(b, p + 4) * rec, rec, end);
    }
  }

  /** What `btf_ext_setup_info` accepts. */
  predicate Accepted(data: seq<byte>, hdrLen: nat, off: nat, len: nat, minRec: nat) {
    && off % 4 == 0 && hdrLen + off + len <= |data| && len > 4
    && ReadWord(data, hdrLen + off) >= minRec && ReadWord(data, hdrLen + off) % 4 == 0
    && Tiles(data, hdrLen + off + 4, ReadWord(data, hdrLen + off), len - 4)
  }

  /** That is: aligned, in range, records of a legal size, and at least one section, back to
      back to the end. */
  lemma AcceptedIff(data: seq<byte>, hdrLen: nat, off: nat, len: nat, minRec: nat)
    ensures Accepted(data, hdrLen, off, len, minRec) <==>
            && off % 4 == 0 && 4 <= len && hdrLen + off + len <= |data|
            && var rec, p, end := ReadWord(data, hdrLen + off), hdrLen + off + 4, hdrLen + off + len;
               minRec <= rec && rec % 4 == 0 && SectionsFill(data, p, rec, end)
  {
    hide ReadWord, Tiles, BackToBack, Starts;
    if off % 4 == 0 && 4 <= len && hdrLen + off + len <= |data| {
      var rec, p, end := ReadWord(data, hdrLen + off), hdrLen + off + 4, hdrLen + off + len;
      TilesIff(data, p, rec, end);
      OnlyNoneIsEmpty(data, p, rec, end);
    }
  }

  /** At least one section, back to back from `p` to `end`. */
  ghost predicate SectionsFill(b: seq<byte>, p: nat, rec: nat, end: nat)
    requires end <= |b|
  {
    exists starts :: starts != [] && BackToBack(b, starts, p, rec, end)
  }

  lemma OnlyNoneIsEmpty(b: seq<byte>, p: nat, rec: nat, end: nat)
    requires p <= end <= |b|
    ensures BackToBack(b, [], p, rec, end) <==> p == end
    ensures forall starts :: BackToBack(b, starts, p, rec, end) && p == end ==> starts == []
  {
    hide ReadWord;
    forall starts | BackToBack(b, starts, p, rec, end) && starts != [] ensures p < end {
      NeverBeyond(b, starts[1..], p + 8 + ReadWord(b, p + 4) * rec, rec, end);
    }
  }

  /** `btf_ext_setup_info`.  On success the records start at `info` and take `infoLen` bytes. */
  method SetupInfo(data: seq<byte>, hdrLen: nat, off: nat, len: nat, minRec: nat)
    returns (err: int, info: nat, recSize: nat, infoLen: nat)
    ensures err == if Accepted(data, hdrLen, off, len, minRec) then 0 else -EINVAL
    ensures err == 0 ==> info == hdrLen + off + 4 && infoLen == len - 4 && recSize == ReadWord(data, hdrLen + off)
  {
    info, recSize, infoLen := 0, 0, 0;
    if off % 4 != 0 {
      return -EINVAL, 0, 0, 0;
    }
    if |data| < hdrLen + off + len {
      return -EINVAL, 0, 0, 0;
    }
    if len < 4 {
      return -EINVAL, 0, 0, 0;
    }
    recSize := ReadWord(data, hdrLen + off);
    if recSize < minRec || recSize % 4 != 0 {
      return -EINVAL, 0, 0, 0;
    }
    var p: nat, left: nat := hdrLen + off + 4, len - 4;
    if left == 0 {
      return -EINVAL, 0, 0, 0;
    }
    while left != 0
      invariant 0 <= left && p + left <= |data|
      invariant Tiles(data, hdrLen + off + 4, recSize, len - 4) <==> Tiles(data, p, recSize, left)
      decreases left
    {
      if left < SEC_HDR {
        return -EINVAL, 0, 0, 0;
      }
      var num := NumInfo(data, p);
      if num == 0 {
        return -EINVAL, 0, 0, 0;
      }
      var total: nat := SEC_HDR + num * recSize;
      if left < total {
        return -EINVAL, 0, 0, 0;
      }
      left := left - total;
      p := p + total;
    }
    return 0, hdrLen + off + 4, recSize, len - 4;
  }

  // ----- relocation -----

  /** Where the first section with the wanted name starts. */
  function FirstMatch(b: seq<byte>, p: nat, rec: nat, left: nat, name: nat -> string, sec: string): (r: Option<nat>)
    requires p + left <= |b| && Tiles(b, p, rec, left)
    ensures r.Some? ==> p <= r.value && r.value + SEC_HDR <= p + left && r.value + SecSize(b, r.value, rec) <= p + left
    ensures r.Some? ==> name(ReadWord(b, r.value)) == sec
    decreases left
  {
    if left == 0 then None
    else if name(ReadWord(b, p)) == sec then Some(p)
    else FirstMatch(b, p + SecSize(b, p, rec), rec, left - SecSize(b, p, rec), name, sec)
  }

  /** It is the first section of that name, if there is any. */
  lemma {:induction false} FirstMatchIs(b: seq<byte>, p: nat, rec: nat, left: nat, name: nat -> string, sec: string)
    requires p + left <= |b| && Tiles(b, p, rec, left)
    ensures var starts := Starts(b, p, rec, left);
            && (forall i :: 0 <= i < |starts| ==> starts[i] + 8 <= |b|)
            && IsFirst(b, starts, name, sec, FirstMatch(b, p, rec, left, name, sec))
    decreases left
  {
    hide ReadWord, SecSize;
    if left > 0 {
      var n := SecSize(b, p, rec);
      var rest, r := Starts(b, p + n, rec, left - n), FirstMatch(b, p + n, rec, left - n, name, sec);
      FirstMatchIs(b, p + n, rec, left - n, name, sec);
      var starts := [p] + rest;
      assert forall i :: 0 < i < |starts| ==> starts[i] == rest[i - 1];
      if name(ReadWord(b, p)) != sec && r.Some? {
        var i :| 0 <= i < |rest| && rest[i] == r.value && FirstAt(b, rest, name, sec, i);
        assert starts[i + 1] == r.value && FirstAt(b, starts, name, sec, i + 1);
      } else if name(ReadWord(b, p)) == sec {
        assert starts[0] == p && FirstAt(b, starts, name, sec, 0);
      }
    }
  }

  predicate FirstAt(b: seq<byte>, starts: seq<nat>, name: nat -> string, sec: string, i: nat)
    requires i < |starts| && forall j :: 0 <= j < |starts| ==> starts[j] + 8 <= |b|
  {
    name(ReadWord(b, starts[i])) == sec && forall j :: 0 <= j < i ==> name(ReadWord(b, starts[j])) != sec
  }

  predicate IsFirst(b: seq<byte>, starts: seq<nat>, name: nat -> string, sec: string, r: Option<nat>)
    requires forall j :: 0 <= j < |starts| ==> starts[j] + 8 <= |b|
  {
    match r
    case None => forall i :: 0 <= i < |starts| ==> name(ReadWord(b, starts[i])) != sec
    case Some(q) => exists i :: 0 <= i < |starts| && starts[i] == q && FirstAt(b, starts, name, sec, i)
  }

  lemma RecordsAre(b: seq<byte>, p: nat, rec: nat)
    requires p + 8 <= |b| && p + SecSize(b, p, rec) <= |b|
    ensures var n := ReadWord(b, p + 4) * rec; p + 8 + n <= |b| && Records(b, p, rec) == b[p + 8..p + 8 + n]
  {
  }

  /** A record with its instruction offset turned from bytes of its section into an
      instruction index of the program; the rest of the record is untouched. */
  function AdjustRecord(r: seq<byte>, insnsCnt: nat): (s: seq<byte>)
    requires |r| >= 4
    ensures |s| == |r|
  {
    WriteWord(r, 0, (ReadWord(r, 0) / 8 + insnsCnt) % U32)
  }

  function AdjustAll(rs: seq<byte>, rec: nat, insnsCnt: nat): (s: seq<byte>)
    requires rec >= 4
    ensures |s| == |rs|
    decreases |rs|
  {
    if |rs| < rec then rs else AdjustRecord(rs[..rec], insnsCnt) + AdjustAll(rs[rec..], rec, insnsCnt)
  }

  /** The records of the section at `p`. */
  function Records(b: seq<byte>, p: nat, rec: nat): (r: seq<byte>)
    requires p + SEC_HDR <= |b| && p + SecSize(b, p, rec) <= |b|
    ensures |r| == NumInfo(b, p) * rec
  {
    b[p + SEC_HDR..p + SecSize(b, p, rec)]
  }

  lemma AdjustRecordMeans(r: seq<byte>, insnsCnt: nat)
    requires |r| >= 4
    ensures ReadWord(AdjustRecord(r, insnsCnt), 0) == (ReadWord(r, 0) / 8 + insnsCnt) % U32
    ensures AdjustRecord(r, insnsCnt)[4..] == r[4..]
  {
    hide ReadWord, WordBytes;
    var w: u32 := (ReadWord(r, 0) / 8 + insnsCnt) % U32;
    WordRoundTrip(w);
    ReadSlice(AdjustRecord(r, insnsCnt), WordBytes(w), 0, 0);
  }

  /** Adjusting works record by record. */
  lemma {:induction false} AdjustMore(rs: seq<byte>, done: nat, rec: nat, insnsCnt: nat)
    requires rec >= 4 && done % rec == 0 && done + rec <= |rs|
    ensures AdjustAll(rs[..done + rec], rec, insnsCnt) ==
            AdjustAll(rs[..done], rec, insnsCnt) + AdjustRecord(rs[done..done + rec], insnsCnt)
    decreases done
  {
    hide AdjustRecord;
    if done == 0 {
      assert rs[..0 + rec][..rec] == rs[0..0 + rec];
      assert rs[..0 + rec][rec..] == [];
    } else {
      FullRecord(done, rec);
      var tail := rs[rec..];
      AdjustMore(tail, done - rec, rec, insnsCnt);
      assert rs[..done + rec][rec..] == tail[..done - rec + rec] && rs[..done][rec..] == tail[..done - rec];
      assert rs[..done + rec][..rec] == rs[..done][..rec];
      assert tail[done - rec..done - rec + rec] == rs[done..done + rec];
    }
  }

  lemma FullRecord(done: nat, rec: nat)
    requires rec > 0 && done > 0 && done % rec == 0
    ensures done >= rec && (done - rec) % rec == 0
  {
    var q := done / rec;
    assert done == rec * q;
    ProductAtLeast(rec, q);
    assert done - rec == rec * (q - 1);
    RemainderIs(done - rec, rec, q - 1, 0);
  }

  /** `btf_ext_reloc_info`: appends the records of the first section called `sec` to those
      gathered so far, with their instruction offsets moved into the program. */
  method RelocInfo(data: seq<byte>, info: nat, rec: nat, len: nat, name: nat -> string, sec: string, insnsCnt: nat,
                   buf: seq<byte>, cnt: nat)
    returns (err: int, newBuf: seq<byte>, newCnt: nat)
    requires info + len <= |data| && Tiles(data, info, rec, len) && rec >= 4
    requires |buf| == cnt * rec && len < U32
    requires match FirstMatch(data, info, rec, len, name, sec)
             case None => true
             case Some(p) => |buf| + NumInfo(data, p) * rec < U32
    ensures match FirstMatch(data, info, rec, len, name, sec)
            case None => err == -ENOENT && newBuf == buf && newCnt == cnt
            case Some(p) => err == 0 && newCnt == cnt + NumInfo(data, p)
                            && newBuf == buf + AdjustAll(Records(data, p, rec), rec, insnsCnt)
  {
    hide AdjustAll, ReadWord, Tiles, FirstMatch, SecSize, Records;
    var p: nat, remain: nat := info, len;
    while remain > 0
      invariant p + remain <= |data| && remain <= len && Tiles(data, p, rec, remain)
      invariant FirstMatch(data, info, rec, len, name, sec) == FirstMatch(data, p, rec, remain, name, sec)
      decreases remain
    {
      NextSection(data, p, rec, remain, name, sec);
      var num := NumInfo(data, p);
      var recordsLen := num * rec % U32;
      if name(ReadWord(data, p)) != sec {
        remain := remain - (SEC_HDR + recordsLen);
        p := p + SEC_HDR + recordsLen;
        continue;
      }
      var existingLen := cnt * rec % U32;
      newBuf := buf + data[p + SEC_HDR..p + SEC_HDR + recordsLen];
      newBuf := AdjustOffsets(newBuf, existingLen, num, rec, insnsCnt);
      newCnt := cnt + num;
      return 0, newBuf, newCnt;
    }
    return -ENOENT, buf, cnt;
  }

  /** The walk steps from one section to the next without overflow, and looks at each name. */
  lemma NextSection(b: seq<byte>, p: nat, rec: nat, left: nat, name: nat -> string, sec: string)
    requires p + left <= |b| && 0 < left < U32 && Tiles(b, p, rec, left)
    ensures p + SEC_HDR <= |b|
    ensures var n := NumInfo(b, p) * rec % U32;
            && SecSize(b, p, rec) == SEC_HDR + n <= left && Tiles(b, p + SEC_HDR + n, rec, left - SEC_HDR - n)
            && Records(b, p, rec) == b[p + SEC_HDR..p + SEC_HDR + n] && n == NumInfo(b, p) * rec
            && FirstMatch(b, p, rec, left, name, sec) ==
               if name(ReadWord(b, p)) == sec then Some(p)
               else FirstMatch(b, p + SEC_HDR + n, rec, left - SEC_HDR - n, name, sec)
  {
    hide ReadWord;
  }

  /** Two sections of different names fit into the info together. */
  lemma {:induction false} TwoSectionsFit(b: seq<byte>, p: nat, rec: nat, left: nat, name: nat -> string,
                                          sec1: string, sec2: string)
    requires p + left <= |b| && Tiles(b, p, rec, left) && sec1 != sec2
    ensures var r1, r2 := FirstMatch(b, p, rec, left, name, sec1), FirstMatch(b, p, rec, left, name, sec2);
            r1.Some? && r2.Some? ==> SecSize(b, r1.value, rec) + SecSize(b, r2.value, rec) <= left
    decreases left
  {
    hide ReadWord, SecSize;
    if left > 0 {
      var n := SecSize(b, p, rec);
      TwoSectionsFit(b, p + n, rec, left - n, name, sec1, sec2);
      MatchFits(b, p + n, rec, left - n, name, sec1);
      MatchFits(b, p + n, rec, left - n, name, sec2);
    }
  }

  lemma MatchFits(b: seq<byte>, p: nat, rec: nat, left: nat, name: nat -> string, sec: string)
    requires p + left <= |b| && Tiles(b, p, rec, left)
    ensures var r := FirstMatch(b, p, rec, left, name, sec);
            r.Some? ==> p <= r.value && r.value + SecSize(b, r.value, rec) <= p + left
  {
    hide ReadWord, SecSize;
  }

  /** The loader's two calls: the program's own section first, then that of `.text`, whose
      records come behind `insnsCnt` instructions.  Nothing overflows. */
  method RelocBoth(data: seq<byte>, info: nat, rec: nat, len: nat, name: nat -> string, sec: string, text: string,
                   insnsCnt: nat)
    returns (err: int, buf: seq<byte>, cnt: nat)
    requires info + len <= |data| && Tiles(data, info, rec, len) && rec >= 4 && len < U32 && sec != text
    ensures var r1, r2 := FirstMatch(data, info, rec, len, name, sec), FirstMatch(data, info, rec, len, name, text);
            if r1.None? || r2.None? then err == -ENOENT
            else && err == 0 && cnt == NumInfo(data, r1.value) + NumInfo(data, r2.value)
                 && buf == AdjustAll(Records(data, r1.value, rec), rec, 0)
                           + AdjustAll(Records(data, r2.value, rec), rec, insnsCnt)
  {
    hide AdjustAll, ReadWord, Tiles, FirstMatch, Records;
    TwoSectionsFit(data, info, rec, len, name, sec, text);
    MatchFits(data, info, rec, len, name, sec);
    err, buf, cnt := RelocInfo(data, info, rec, len, name, sec, 0, [], 0);
    if err != 0 {
      return;
    }
    err, buf, cnt := RelocInfo(data, info, rec, len, name, text, insnsCnt, buf, cnt);
  }

  /** Moves the instruction offset of each of the `num` records from `start` on, in place. */
  method AdjustOffsets(d0: seq<byte>, start: nat, num: nat, rec: nat, insnsCnt: nat) returns (d: seq<byte>)
    requires rec >= 4 && start <= |d0| && |d0| - start == num * rec
    ensures d == d0[..start] + AdjustAll(d0[start..], rec, insnsCnt)
  {
    hide AdjustAll, ReadWord;
    ghost var rs := d0[start..];
    d := d0;
    var i, at := 0, start;
    AdjustNone(rec, insnsCnt);
    while i < num
      invariant 0 <= i <= num && at == start + i * rec <= |d0| && (at - start) % rec == 0
      invariant d == d0[..start] + AdjustAll(rs[..at - start], rec, insnsCnt) + rs[at - start..]
    {
      OneMoreFits(i, num, rec);
      ghost var done: nat := at - start;
      AdjustMore(rs, done, rec, insnsCnt);
      AdjustedInPlace(d0[..start], AdjustAll(rs[..done], rec, insnsCnt), rs, done, rec, insnsCnt);
      d := WriteWord(d, at, (ReadWord(d, at) / 8 + insnsCnt) % U32);
      at := at + rec;
      i := i + 1;
      MultipleOf(done, rec);
    }
    assert rs[..at - start] == rs && rs[at - start..] == [];
  }

  lemma AdjustNone(rec: nat, insnsCnt: nat)
    requires rec >= 4
    ensures AdjustAll([], rec, insnsCnt) == []
  {
  }

  lemma OneMoreFits(i: nat, num: nat, rec: nat)
    requires i < num
    ensures (i + 1) * rec == i * rec + rec <= num * rec
  {
    assert num * rec == (i + 1) * rec + (num - i - 1) * rec;
  }

  lemma MultipleOf(done: nat, rec: nat)
    requires rec > 0 && done % rec == 0
    ensures (done + rec) % rec == 0
  {
    var q := done / rec;
    assert done == rec * q;
    assert done + rec == rec * (q + 1);
    RemainderIs(done + rec, rec, q + 1, 0);
  }

  lemma MiddleOf(pre: seq<byte>, adj: seq<byte>, rs: seq<byte>, done: nat, rec: nat)
    requires rec >= 4 && done + rec <= |rs| && |adj| == done
    ensures var d, at, r := pre + adj + rs[done..], |pre| + done, rs[done..done + rec];
            && d[at..at + 4] == r[0..4] && d[..at] == pre + adj
            && d[at + 4..] == r[4..] + rs[done + rec..]
  {
    var d, at, r, rest := pre + adj + rs[done..], |pre| + done, rs[done..done + rec], rs[done..];
    assert d[at..] == rest && rest == r + rs[done + rec..];
    assert d[at..at + 4] == rest[..4] && d[at + 4..] == rest[4..];
  }

  /** Storing the adjusted word in the middle of the buffer adjusts that record. */
  lemma AdjustedInPlace(pre: seq<byte>, adj: seq<byte>, rs: seq<byte>, done: nat, rec: nat, insnsCnt: nat)
    requires rec >= 4 && done + rec <= |rs| && |adj| == done
    ensures var d, at := pre + adj + rs[done..], |pre| + done;
            && at + 4 <= |d|
            && WriteWord(d, at, (ReadWord(d, at) / 8 + insnsCnt) % U32) ==
               pre + (adj + AdjustRecord(rs[done..done + rec], insnsCnt)) + rs[done + rec..]
  {
    hide ReadWord, WordBytes;
    MiddleOf(pre, adj, rs, done, rec);
    var d, at, r := pre + adj + rs[done..], |pre| + done, rs[done..done + rec];
    ReadSlice(d, r, at, 0);
  }
}
