/** `bpf_perf_event_read_simple`: reading the records that the kernel has put into a
    power-of-two byte ring, some of which wrap around its end. */
module PerfRing {
  import opened Common
  import opened Bits
  import opened Memory

  /** A counter as it is kept, in 64 bits. */
  function Wrap(n: nat): nat {
    n % U64
  }

  const ERROR := -1
  const CONT := -2

  /** The size field of a `struct perf_event_header`. */
  function EventSize(b: seq<byte>, p: nat): nat
    requires p + 8 <= |b|
  {
    var lo: int, hi: int := b[p + 6], b[p + 7];
    lo + 256 * hi
  }

  /** A record begins with a header that gives its size. */
  predicate IsRecord(rec: seq<byte>) {
    |rec| >= 8 && EventSize(rec, 0) == |rec|
  }

  /** The size is the 16-bit number in the last two bytes of the header, low byte first. */
  lemma RecordIff(rec: seq<byte>)
    ensures IsRecord(rec) <==> |rec| >= 8 && rec[6] as int + 256 * rec[7] as int == |rec|
  {
  }

  /** So a type word, a misc field, the whole size and a payload make a record. */
  lemma BuiltIsRecord(kind: u32, misc: seq<byte>, payload: seq<byte>)
    requires |misc| == 2 && 8 + |payload| < 0x1_0000
    ensures var n := 8 + |payload|;
            var rec := WordBytes(kind) + misc + [n % 256, n / 256] + payload;
            IsRecord(rec) && |rec| == n
  {
    var n := 8 + |payload|;
    RecordIff(WordBytes(kind) + misc + [n % 256, n / 256] + payload);
  }

  /** The record's bytes lie in the ring from true position `p` on, and its header does not wrap. */
  ghost predicate HeldAt(ring: seq<byte>, p: nat, rec: seq<byte>)
    requires |ring| > 0
  {
    && IsRecord(rec) && |rec| <= |ring|
    && p % |ring| + 8 <= |ring|
    && forall x :: 0 <= x < |rec| ==> ring[(p + x) % |ring|] == rec[x]
  }

  /** The records tile the ring from true position `tail` on. */
  ghost predicate Holds(ring: seq<byte>, tail: nat, recs: seq<seq<byte>>)
    requires |ring| > 0
    decreases |recs|
  {
    recs == [] || (HeldAt(ring, tail, recs[0]) && Holds(ring, tail + |recs[0]|, recs[1..]))
  }

  function Sizes(recs: seq<seq<byte>>): nat {
    if recs == [] then 0 else |recs[0]| + Sizes(recs[1..])
  }

  // ----- where a record lies -----

  lemma ShiftedIndex(p: nat, x: nat, n: nat)
    requires n > 0 && x <= n
    ensures (p + x) % n == if p % n + x < n then p % n + x else p % n + x - n
  {
    var q, r := p / n, p % n;
    assert p == n * q + r;
    if r + x < n {
      RemainderIs(p + x, n, q, r + x);
    } else {
      assert p + x == n * (q + 1) + (r + x - n);
      if r + x - n < n {
        RemainderIs(p + x, n, q + 1, r + x - n);
      }
    }
  }

  /** A record is one slice of the ring, or a slice at its end and one at its start. */
  lemma RecordSlices(ring: seq<byte>, p: nat, rec: seq<byte>)
    requires |ring| > 0 && HeldAt(ring, p, rec)
    ensures var n, off := |ring|, p % |ring|;
            && off + 8 <= n && EventSize(ring, off) == |rec| >= 8
            && (off + |rec| <= n ==> ring[off..off + |rec|] == rec)
            && (off + |rec| > n ==> |rec| - (n - off) <= n && ring[off..] + ring[..|rec| - (n - off)] == rec)
  {
    var n, off := |ring|, p % |ring|;
    forall x | 0 <= x < |rec| ensures rec[x] == if off + x < n then ring[off + x] else ring[off + x - n] {
      ShiftedIndex(p, x, n);
      assert ring[(p + x) % n] == rec[x];
    }
    assert rec[6] == ring[off + 6] && rec[7] == ring[off + 7];
  }

  lemma MaskedTail(t: nat, n: nat)
    requires IsPow2(n) && n <= U64
    ensures n > 0 && And(Wrap(t), n - 1) == t % n
  {
    hide Pow2, And;
    var k: nat :| n == Pow2(k);
    Pow2At64();
    if k > 64 {
      Pow2Monotone(65, k);
    }
    MaskOfWrapped(t, k, 64);
  }

  // ----- reading -----

  lemma HoldsNext(ring: seq<byte>, at: nat, rest: seq<seq<byte>>)
    requires |ring| > 0 && Holds(ring, at, rest) && rest != []
    ensures HeldAt(ring, at, rest[0]) && Holds(ring, at + |rest[0]|, rest[1..])
    ensures Sizes(rest) == |rest[0]| + Sizes(rest[1..])
  {
  }

  lemma {:induction false} SizesAppend(a: seq<seq<byte>>, x: seq<byte>)
    ensures Sizes(a + [x]) == Sizes(a) + |x|
  {
    if a == [] {
      assert a + [x] == [x];
      assert Sizes([x]) == |x| + Sizes([]);
    } else {
      assert (a + [x])[1..] == a[1..] + [x];
      SizesAppend(a[1..], x);
    }
  }

  /** The wrapped counters differ exactly while records are left. */
  lemma LeftIffDifferent(ring: seq<byte>, at: nat, rest: seq<seq<byte>>)
    requires |ring| > 0 && Holds(ring, at, rest) && Sizes(rest) <= |ring| < U64
    ensures rest == [] <==> Wrap(at + Sizes(rest)) == Wrap(at)
  {
    if rest != [] {
      var d := Sizes(rest);
      assert HeldAt(ring, at, rest[0]) && d >= 8;
      var r := at % U64;
      assert at == U64 * (at / U64) + r;
      if r + d < U64 {
        RemainderIs(at + d, U64, at / U64, r + d);
      } else {
        RemainderIs(at + d, U64, at / U64 + 1, r + d - U64);
      }
    }
  }

  lemma WrappedAdd(a: nat, b: nat)
    ensures Wrap(Wrap(a) + b) == Wrap(a + b)
  {
  }

  /** The event at `off`, copied together first if it wraps.  The copy buffer is replaced
      when it is too small. */
  method FetchEvent(ring: array<byte>, off: nat, size: nat, copy: seq<byte>, allocOk: bool)
    returns (ok: bool, event: seq<byte>, newCopy: seq<byte>)
    requires off < ring.Length && size <= ring.Length
    ensures ok <==> off + size <= ring.Length || size <= |copy| || allocOk
    ensures ok && off + size <= ring.Length ==> event == ring[off..off + size]
    ensures ok && off + size > ring.Length ==> event == ring[off..] + ring[..size - (ring.Length - off)]
  {
    newCopy := copy;
    if off + size > ring.Length {
      var first := ring.Length - off;
      if |newCopy| < size {
        if !allocOk {
          return false, [], [];
        }
        newCopy := seq(size, _ => 0);
      }
      newCopy := ring[off..] + ring[..size - first] + newCopy[size..];
      event := newCopy[..size];
    } else {
      event := ring[off..off + size];
    }
    ok := true;
  }

  /** One pass over the ring.  `fn` stands for the callback, given how often it was called
      before and the event; `alloc` says whether `malloc` succeeds at that time.  `t` is the
      true position of the tail, and `recs` are the records between tail and head. */
  method ReadSimple(ring: array<byte>, head: nat, tail: nat, copy: seq<byte>, fn: (nat, seq<byte>) -> int,
                    alloc: nat -> bool,
                    ghost t: nat, ghost recs: seq<seq<byte>>)
    returns (ret: int, newTail: nat, newCopy: seq<byte>, handed: seq<seq<byte>>)
    requires IsPow2(ring.Length) && 0 < ring.Length < U64
    requires tail == Wrap(t) && head == Wrap(t + Sizes(recs)) && Sizes(recs) <= ring.Length
    requires Holds(ring[..], t, recs)
    ensures |handed| <= |recs| && handed == recs[..|handed|]
    ensures newTail == Wrap(t + Sizes(handed))
    ensures forall k :: 0 <= k < |handed| - 1 ==> fn(k, recs[k]) == -2
    ensures if |handed| == |recs| then ret == if recs == [] then -2 else fn(|recs| - 1, recs[|recs| - 1])
            else (|handed| > 0 && ret == fn(|handed| - 1, recs[|handed| - 1]) != -2)
                 || (ret == -1 && !alloc(|handed|))
  {
    hide Wrap, And, IsPow2, Sizes, Holds, HeldAt, EventSize, IsRecord;
    ret, newTail, newCopy, handed := CONT, tail, copy, [];
    LeftIffDifferent(ring[..], t, recs);
    ReadNothing(ring[..], t, recs);
    while head != newTail
      invariant ret == CONT && ReadSoFar(ring[..], t, recs, handed) && newTail == Wrap(t + Sizes(handed))
      invariant |handed| < |recs| <==> head != newTail
      invariant forall k :: 0 <= k < |handed| ==> fn(k, recs[k]) == CONT
      decreases |recs| - |handed|
    {
      var ok: bool, size: nat, event: seq<byte>;
      ok, size, event, newCopy := NextEvent(ring, newTail, newCopy, alloc(|handed|), t, recs, handed);
      if !ok {
        ret := ERROR;
        break;
      }
      ret := fn(|handed|, event);
      ReadOneMore(ring[..], t, recs, handed);
      newTail := Wrap(newTail + size);
      handed := handed + [event];
      if ret != CONT {
        break;
      }
    }
  }

  /** The first records have been handed over, and the others are still in the ring. */
  ghost predicate ReadSoFar(ring: seq<byte>, t: nat, recs: seq<seq<byte>>, handed: seq<seq<byte>>)
    requires |ring| > 0
  {
    && |handed| <= |recs| && handed == recs[..|handed|]
    && Sizes(handed) + Sizes(recs[|handed|..]) == Sizes(recs) <= |ring| < U64
    && Holds(ring, t + Sizes(handed), recs[|handed|..])
  }

  lemma ReadNothing(ring: seq<byte>, t: nat, recs: seq<seq<byte>>)
    requires 0 < |ring| < U64 && Holds(ring, t, recs) && Sizes(recs) <= |ring|
    ensures ReadSoFar(ring, t, recs, []) && Sizes([]) == 0
  {
  }

  lemma ReadOneMore(ring: seq<byte>, t: nat, recs: seq<seq<byte>>, handed: seq<seq<byte>>)
    requires |ring| > 0 && ReadSoFar(ring, t, recs, handed) && |handed| < |recs|
    ensures var x := recs[|handed|];
            && ReadSoFar(ring, t, recs, handed + [x])
            && Wrap(Wrap(t + Sizes(handed)) + |x|) == Wrap(t + Sizes(handed + [x]))
            && (|handed| + 1 < |recs| <==> Wrap(t + Sizes(recs)) != Wrap(t + Sizes(handed + [x])))
  {
    hide Wrap, Sizes, ReadSoFar;
    var x := recs[|handed|];
    Advance(ring, t, recs, handed);
    WrappedAdd(t + Sizes(handed), |x|);
    LeftIffBehind(ring, t, recs, handed + [x]);
  }

  lemma Advance(ring: seq<byte>, t: nat, recs: seq<seq<byte>>, handed: seq<seq<byte>>)
    requires |ring| > 0 && ReadSoFar(ring, t, recs, handed) && |handed| < |recs|
    ensures var x := recs[|handed|];
            ReadSoFar(ring, t, recs, handed + [x]) && Sizes(handed + [x]) == Sizes(handed) + |x|
  {
    hide Sizes, Holds, HeldAt;
    var x, rest := recs[|handed|], recs[|handed|..];
    HoldsNext(ring, t + Sizes(handed), rest);
    SizesAppend(handed, x);
    PrefixGrows(recs, handed, x);
  }

  lemma LeftIffBehind(ring: seq<byte>, t: nat, recs: seq<seq<byte>>, handed: seq<seq<byte>>)
    requires |ring| > 0 && ReadSoFar(ring, t, recs, handed)
    ensures |handed| < |recs| <==> Wrap(t + Sizes(recs)) != Wrap(t + Sizes(handed))
  {
    hide Wrap, Sizes, Holds, HeldAt;
    var rest, at := recs[|handed|..], t + Sizes(handed);
    LeftIffDifferent(ring, at, rest);
    assert t + Sizes(recs) == at + Sizes(rest);
  }

  /** Reads the event at the tail. */
  method NextEvent(ring: array<byte>, tail: nat, copy: seq<byte>, allocOk: bool, ghost t: nat,
                   ghost recs: seq<seq<byte>>, ghost handed: seq<seq<byte>>)
    returns (ok: bool, size: nat, event: seq<byte>, newCopy: seq<byte>)
    requires IsPow2(ring.Length) && 0 < ring.Length < U64 && ReadSoFar(ring[..], t, recs, handed) && |handed| < |recs|
    requires tail == Wrap(t + Sizes(handed))
    ensures ok ==> event == recs[|handed|] && size == |event|
    ensures !ok ==> !allocOk
  {
    hide Wrap, And, IsPow2, Sizes, Holds, HeldAt, EventSize, IsRecord;
    ghost var at := t + Sizes(handed);
    HoldsNext(ring[..], at, recs[|handed|..]);
    MaskedTail(at, ring.Length);
    RecordSlices(ring[..], at, recs[|handed|]);
    HeldFits(ring[..], at, recs[|handed|]);
    var off := And(tail, ring.Length - 1);
    size := EventSize(ring[..], off);
    ok, event, newCopy := FetchEvent(ring, off, size, copy, allocOk);
  }

  lemma HeldFits(ring: seq<byte>, p: nat, rec: seq<byte>)
    requires |ring| > 0 && HeldAt(ring, p, rec)
    ensures 8 <= |rec| <= |ring|
  {
  }

  lemma PrefixGrows(recs: seq<seq<byte>>, handed: seq<seq<byte>>, x: seq<byte>)
    requires |handed| < |recs| && handed == recs[..|handed|] && x == recs[|handed|]
    ensures handed + [x] == recs[..|handed| + 1] && recs[|handed|..][1..] == recs[|handed| + 1..]
  {
  }

}
