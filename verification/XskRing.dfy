/** The AF_XDP rings: one producer and one consumer share a power-of-two ring, two 32-bit
    counters that wrap around, and each keeps a private copy of the other's counter.

    `Ring` holds the words that exist; `History` holds counts that never wrap and the
    values submitted so far, and exists only in the proof. */
module XskRing {
  import opened Common
  import opened Bits

  function Add32(a: nat, b: nat): nat {
    (a + b) % U32
  }

  function Sub32(a: nat, b: nat): nat {
    (a - b) % U32
  }

  /** `producer` and `consumer` are shared; `prodProd` and `prodCons` are the producer's
      `cached_prod` and `cached_cons`, `consProd` and `consCons` the consumer's. */
  datatype Ring<T> = Ring(size: nat, slots: seq<T>, producer: nat, consumer: nat,
                          prodProd: nat, prodCons: nat, consProd: nat, consCons: nat)

  /** How many entries were ever reserved, peeked and released, which values were
      submitted, what each side last saw of the other, and what the producer last wrote to
      each entry, by its true index. */
  datatype History<T> = History(reserved: nat, submitted: seq<T>, peeked: nat, released: nat,
                                seenCons: nat, seenProd: nat, written: map<nat, T>)

  ghost predicate Valid<T>(r: Ring<T>, h: History<T>) {
    && IsPow2(r.size) && r.size < U32 && |r.slots| == r.size
    && h.seenCons <= h.released <= h.peeked <= h.seenProd <= |h.submitted| <= h.reserved <= h.seenCons + r.size
    && r.producer == |h.submitted| % U32 && r.consumer == h.released % U32
    && r.prodProd == h.reserved % U32 && r.prodCons == (h.seenCons + r.size) % U32
    && r.consProd == h.seenProd % U32 && r.consCons == h.peeked % U32
    && (forall i :: h.released <= i < |h.submitted| ==> r.slots[i % r.size] == h.submitted[i])
    && WritesKept(r, h)
  }

  /** What was written to an entry is in its slot until it is submitted, and is what was
      submitted from then on. */
  ghost predicate WritesKept<T>(r: Ring<T>, h: History<T>)
    requires 0 < r.size == |r.slots|
  {
    forall i :: i in h.written ==> WriteKept(r, h, i)
  }

  ghost predicate WriteKept<T>(r: Ring<T>, h: History<T>, i: nat)
    requires 0 < r.size == |r.slots| && i in h.written
  {
    if i < |h.submitted| then h.submitted[i] == h.written[i]
    else i < h.reserved && r.slots[i % r.size] == h.written[i]
  }

  // ----- the operations of xsk.h -----

  /** `idx & mask`: the slot that an index handed out by reserve or peek denotes. */
  function SlotOf<T>(r: Ring<T>, idx: nat): nat
    requires r.size > 0
  {
    And(idx, r.size - 1)
  }

  function ProdNbFree<T>(r: Ring<T>, nb: nat): (Ring<T>, nat) {
    var free := Sub32(r.prodCons, r.prodProd);
    if free >= nb then (r, free)
    else
      var r' := r.(prodCons := Add32(r.consumer, r.size));
      (r', Sub32(r'.prodCons, r'.prodProd))
  }

  function ConsNbAvail<T>(r: Ring<T>, nb: nat): (Ring<T>, nat) {
    var entries := Sub32(r.consProd, r.consCons);
    var r' := if entries == 0 then r.(consProd := r.producer) else r;
    var entries' := Sub32(r'.consProd, r'.consCons);
    (r', if entries' > nb then nb else entries')
  }

  /** The count is a `size_t`, but `xsk_prod_nb_free` takes it as 32 bits. */
  function Reserve<T>(r: Ring<T>, nb: nat): (Ring<T>, nat) {
    var (r', free) := ProdNbFree(r, nb % U32);
    if free < nb then (r', 0) else (r'.(prodProd := Add32(r'.prodProd, nb)), nb)
  }

  function Submit<T>(r: Ring<T>, nb: nat): Ring<T> {
    r.(producer := Add32(r.producer, nb))
  }

  function Peek<T>(r: Ring<T>, nb: nat): (Ring<T>, nat) {
    var (r', entries) := ConsNbAvail(r, nb % U32);
    if entries > 0 then (r'.(consCons := Add32(r'.consCons, entries)), entries) else (r', 0)
  }

  function Release<T>(r: Ring<T>, nb: nat): Ring<T> {
    r.(consumer := Add32(r.consumer, nb))
  }

  // ----- arithmetic of wrapped counters -----

  /** The difference of two wrapped counters is their true difference while it fits. */
  lemma WrappedDifference(a: nat, b: nat)
    requires b <= a < b + U32
    ensures Sub32(a % U32, b % U32) == a - b
  {
  }

  lemma WrappedSum(a: nat, b: nat)
    ensures Add32(a % U32, b) == (a + b) % U32
  {
  }

  /** Masking a wrapped index finds the slot of the true index: the ring size divides 2^32. */
  lemma SlotOfWrapped<T>(r: Ring<T>, i: nat)
    requires IsPow2(r.size) && r.size < U32
    ensures r.size > 0 && SlotOf(r, i % U32) == i % r.size
  {
    hide Pow2, And;
    var k: nat :| r.size == Pow2(k);
    LogBelow(k);
    MaskOfWrapped(i, k, 32);
  }

  lemma LogBelow(k: nat)
    requires Pow2(k) < U32
    ensures k < 32 && Pow2(32) == U32
  {
    hide Pow2;
    Pow2At32();
    if k >= 32 {
      Pow2Monotone(32, k);
    }
  }

  // ----- what each operation keeps -----

  /** The free count that the producer computes never exceeds the true one. */
  lemma CachedFreeIsSafe<T>(r: Ring<T>, h: History<T>)
    requires Valid(r, h)
    ensures Sub32(r.prodCons, r.prodProd) == h.seenCons + r.size - h.reserved <= h.released + r.size - h.reserved
  {
    WrappedDifference(h.seenCons + r.size, h.reserved);
  }

  /** The available count that the consumer computes never exceeds the true one. */
  lemma CachedAvailIsSafe<T>(r: Ring<T>, h: History<T>)
    requires Valid(r, h)
    ensures Sub32(r.consProd, r.consCons) == h.seenProd - h.peeked <= |h.submitted| - h.peeked
  {
    WrappedDifference(h.seenProd, h.peeked);
  }

  ghost function Reserved<T>(r: Ring<T>, h: History<T>, nb: nat): History<T> {
    var h' := if Sub32(r.prodCons, r.prodProd) >= nb % U32 then h else h.(seenCons := h.released);
    h'.(reserved := h.reserved + Reserve(r, nb).1)
  }

  /** A reservation is all or nothing; it fails only when, with the consumer's counter
      freshly read, too few entries are free, and it never hands out an unreleased entry. */
  lemma ReserveOk<T>(r: Ring<T>, h: History<T>, nb: nat)
    requires Valid(r, h)
    ensures var (r', got) := Reserve(r, nb);
            && Valid(r', Reserved(r, h, nb)) && (got == 0 || got == nb)
            && (got != nb ==> h.released + r.size - h.reserved < nb)
            && h.reserved + got <= h.released + r.size
            && var seen := if h.seenCons + r.size - h.reserved >= nb % U32 then h.seenCons else h.released;
            && got == (if seen + r.size - h.reserved >= nb then nb else 0)
            && Reserved(r, h, nb) == h.(seenCons := seen, reserved := h.reserved + got)
  {
    hide Sub32, Add32, Valid;
    CachedFreeIsSafe(r, h);
    NbFreeOk(r, h, nb % U32);
    var (r', free) := ProdNbFree(r, nb % U32);
    var h' := Reserved(r, h, nb).(reserved := h.reserved);
    if free >= nb {
      TakeReserved(r', h', nb);
    }
  }

  lemma NbFreeOk<T>(r: Ring<T>, h: History<T>, nb: nat)
    requires Valid(r, h)
    ensures var (r', free) := ProdNbFree(r, nb);
            var h' := if Sub32(r.prodCons, r.prodProd) >= nb then h else h.(seenCons := h.released);
            && Valid(r', h') && free == h'.seenCons + r.size - h.reserved <= r.size < U32
            && h'.seenCons <= h.released <= h.reserved && (free < nb ==> free == h.released + r.size - h.reserved)
  {
    hide Sub32, IsPow2;
    WrappedSum(h.released, r.size);
    var (r', free) := ProdNbFree(r, nb);
    var h' := if Sub32(r.prodCons, r.prodProd) >= nb then h else h.(seenCons := h.released);
    assert Valid(r', h');
    CachedFreeIsSafe(r', h');
  }

  lemma TakeReserved<T>(r: Ring<T>, h: History<T>, nb: nat)
    requires Valid(r, h) && h.reserved + nb <= h.seenCons + r.size
    ensures Valid(r.(prodProd := Add32(r.prodProd, nb)), h.(reserved := h.reserved + nb))
  {
    hide IsPow2, Add32;
    WrappedSum(h.reserved, nb);
  }

  lemma DistinctSlots(i: nat, j: nat, n: nat)
    requires n > 0 && i < j < i + n
    ensures i % n != j % n
  {
    var r, d := i % n, j - i;
    assert i == n * (i / n) + r;
    if r + d < n {
      RemainderIs(j, n, i / n, r + d);
    } else {
      assert j == n * (i / n + 1) + (r + d - n);
      RemainderIs(j, n, i / n + 1, r + d - n);
    }
  }

  /** Storing into a reserved entry through its masked index. */
  function Write<T>(r: Ring<T>, idx: nat, v: T): Ring<T>
    requires 0 < r.size == |r.slots|
  {
    r.(slots := r.slots[SlotOf(r, idx) := v])
  }

  ghost function Wrote<T>(h: History<T>, i: nat, v: T): History<T> {
    h.(written := h.written[i := v])
  }

  /** A write to a reserved entry overwrites nothing that was submitted and not released, and
      nothing else that was written and not submitted. */
  lemma WriteOk<T>(r: Ring<T>, h: History<T>, i: nat, v: T)
    requires Valid(r, h) && |h.submitted| <= i < h.reserved
    ensures r.size > 0 && Valid(Write(r, i % U32, v), Wrote(h, i, v))
  {
    hide IsPow2, SlotOf;
    SlotOfWrapped(r, i);
    var r', h' := Write(r, i % U32, v), Wrote(h, i, v);
    forall j | h.released <= j < |h.submitted| ensures r'.slots[j % r.size] == h.submitted[j] {
      DistinctSlots(j, i, r.size);
    }
    forall j | j in h'.written ensures WriteKept(r', h', j) {
      if j != i {
        assert WriteKept(r, h, j);
        if j >= |h.submitted| {
          SpareSlots(i, j, r.size);
        }
      }
    }
  }

  lemma SpareSlots(i: nat, j: nat, n: nat)
    requires n > 0 && i != j && i < j + n && j < i + n
    ensures i % n != j % n
  {
    if i < j {
      DistinctSlots(i, j, n);
    } else {
      DistinctSlots(j, i, n);
    }
  }

  /** The values in the next `nb` entries that the consumer or the producer will pass on. */
  function Values<T>(r: Ring<T>, from: nat, nb: nat): (s: seq<T>)
    requires 0 < r.size == |r.slots|
    ensures |s| == nb
  {
    seq(nb, k requires 0 <= k < nb => r.slots[SlotOf(r, Add32(from, k))])
  }

  lemma ValuesAre<T>(r: Ring<T>, from: nat, nb: nat)
    requires IsPow2(r.size) && r.size < U32 && 0 < r.size == |r.slots|
    ensures forall k :: 0 <= k < nb ==> Values(r, from % U32, nb)[k] == r.slots[(from + k) % r.size]
  {
    forall k | 0 <= k < nb ensures Values(r, from % U32, nb)[k] == r.slots[(from + k) % r.size] {
      WrappedSum(from, k);
      SlotOfWrapped(r, from + k);
    }
  }

  ghost function Submitted<T>(r: Ring<T>, h: History<T>, nb: nat): History<T>
    requires 0 < r.size == |r.slots|
  {
    h.(submitted := h.submitted + Values(r, r.producer, nb))
  }

  /** Submitting publishes the values written: whatever was last written to an entry is the
      value submitted in its place. */
  lemma SubmitOk<T>(r: Ring<T>, h: History<T>, nb: nat)
    requires Valid(r, h) && r.size > 0 && |h.submitted| + nb <= h.reserved
    ensures Valid(Submit(r, nb), Submitted(r, h, nb))
    ensures var s, n := Submitted(r, h, nb).submitted, |h.submitted|;
            |s| == n + nb && s[..n] == h.submitted &&
            forall i :: n <= i < n + nb && i in h.written ==> s[i] == h.written[i]
  {
    hide Values, SlotOf, IsPow2;
    var n := |h.submitted|;
    WrappedSum(n, nb);
    ValuesAre(r, n, nb);
    var h' := Submitted(r, h, nb);
    forall i | h.released <= i < |h'.submitted| ensures r.slots[i % r.size] == h'.submitted[i] {
      if i >= n {
        assert h'.submitted[i] == Values(r, r.producer, nb)[i - n] == r.slots[(n + (i - n)) % r.size];
      }
    }
    forall i | i in h.written ensures WriteKept(r, h', i) {
      assert WriteKept(r, h, i);
    }
  }

  ghost function Peeked<T>(r: Ring<T>, h: History<T>, nb: nat): History<T> {
    var h' := if Sub32(r.consProd, r.consCons) == 0 then h.(seenProd := |h.submitted|) else h;
    h'.(peeked := h.peeked + Peek(r, nb).1)
  }

  /** Peek returns entries that were submitted and not peeked before: all that the consumer
      knows of, or if it knows of none, all that are there, but no more than were asked for (in
      32 bits). */
  lemma PeekOk<T>(r: Ring<T>, h: History<T>, nb: nat)
    requires Valid(r, h)
    ensures var (r', got) := Peek(r, nb);
            && Valid(r', Peeked(r, h, nb)) && got <= nb % U32
            && h.peeked + got <= |h.submitted|
            && (got == 0 ==> nb % U32 == 0 || h.peeked == |h.submitted|)
            && PeekTakes(r, h, nb, got)
  {
    hide Sub32, Add32, IsPow2;
    PeekIs(r, h, nb);
    CachedAvailIsSafe(r, h);
    var (r', entries) := ConsNbAvail(r, nb % U32);
    var h' := Peeked(r, h, nb).(peeked := h.peeked);
    assert Valid(r', h');
    CachedAvailIsSafe(r', h');
    WrappedSum(h.peeked, entries);
  }

  /** In terms of true counts: what is handed out, and what the consumer knows afterwards. */
  ghost predicate PeekTakes<T>(r: Ring<T>, h: History<T>, nb: nat, got: nat) {
    var seen := if h.seenProd == h.peeked then |h.submitted| else h.seenProd;
    && got == (if nb % U32 < seen - h.peeked then nb % U32 else seen - h.peeked)
    && Peeked(r, h, nb) == h.(seenProd := seen, peeked := h.peeked + got)
  }

  lemma PeekIs<T>(r: Ring<T>, h: History<T>, nb: nat)
    requires Valid(r, h)
    ensures PeekTakes(r, h, nb, Peek(r, nb).1)
  {
    hide Sub32, Add32, IsPow2, WritesKept;
    CachedAvailIsSafe(r, h);
    WrappedDifference(|h.submitted|, h.peeked);
  }

  /** Between peek and release an entry holds the value that was submitted in its place. */
  lemma ReadOk<T>(r: Ring<T>, h: History<T>, i: nat)
    requires Valid(r, h) && h.released <= i < h.peeked
    ensures r.size > 0 && SlotOf(r, i % U32) < |r.slots| && r.slots[SlotOf(r, i % U32)] == h.submitted[i]
    ensures i in h.written ==> h.submitted[i] == h.written[i]
  {
    SlotOfWrapped(r, i);
    assert i in h.written ==> WriteKept(r, h, i);
  }

  lemma ReleaseOk<T>(r: Ring<T>, h: History<T>, nb: nat)
    requires Valid(r, h) && h.released + nb <= h.peeked
    ensures Valid(Release(r, nb), h.(released := h.released + nb))
  {
    WrappedSum(h.released, nb);
  }

  // ----- every interleaving -----

  /** One step of either side.  Entries are named by their true index. */
  datatype Action<T> =
    | DoReserve(nb: nat) | DoWrite(i: nat, v: T) | DoSubmit(nb: nat)
    | DoPeek(nb: nat) | DoRelease(nb: nat)

  /** What the header asks of its callers: write and submit only what was reserved, and
      release only what was peeked. */
  predicate Allowed<T>(h: History<T>, a: Action<T>) {
    match a
    case DoReserve(_) => true
    case DoWrite(i, _) => |h.submitted| <= i < h.reserved
    case DoSubmit(nb) => |h.submitted| + nb <= h.reserved
    case DoPeek(_) => true
    case DoRelease(nb) => h.released + nb <= h.peeked
  }

  /** The ring, its history, and all that the consumer has read so far: it reads the
      entries that it is about to release. */
  datatype World<T> = World(r: Ring<T>, h: History<T>, received: seq<T>)

  ghost function Step<T>(w: World<T>, a: Action<T>): World<T>
    requires 0 < w.r.size == |w.r.slots|
  {
    match a
    case DoReserve(nb) => World(Reserve(w.r, nb).0, Reserved(w.r, w.h, nb), w.received)
    case DoWrite(i, v) => w.(r := Write(w.r, i % U32, v), h := Wrote(w.h, i, v))
    case DoSubmit(nb) => World(Submit(w.r, nb), Submitted(w.r, w.h, nb), w.received)
    case DoPeek(nb) => World(Peek(w.r, nb).0, Peeked(w.r, w.h, nb), w.received)
    case DoRelease(nb) => World(Release(w.r, nb), w.h.(released := w.h.released + nb),
                                w.received + Values(w.r, w.r.consumer, nb))
  }

  /** The ring is consistent, and the consumer has received a prefix of what was submitted. */
  ghost predicate Good<T>(w: World<T>) {
    Valid(w.r, w.h) && |w.received| == w.h.released && w.received <= w.h.submitted
  }

  lemma StepGood<T>(w: World<T>, a: Action<T>)
    requires Good(w) && Allowed(w.h, a)
    ensures w.r.size > 0 && Good(Step(w, a))
    ensures w.h.submitted <= Step(w, a).h.submitted && w.received <= Step(w, a).received
    ensures Step(w, a).h.written == w.h.written + Writes([a])
  {
    hide Valid, Values, Reserve, Peek, Submit, Release;
    ValidSizes(w.r, w.h);
    match a
    case DoReserve(nb) => ReserveOk(w.r, w.h, nb);
    case DoWrite(i, v) => WriteOk(w.r, w.h, i, v);
    case DoSubmit(nb) => SubmitOk(w.r, w.h, nb);
    case DoPeek(nb) => PeekOk(w.r, w.h, nb);
    case DoRelease(nb) =>
      ReleaseOk(w.r, w.h, nb);
      Passed(w.r, w.h, nb);
      var c := w.h.released;
      assert w.h.submitted[..c + nb] == w.h.submitted[..c] + w.h.submitted[c..c + nb];
  }

  lemma ValidSizes<T>(r: Ring<T>, h: History<T>)
    requires Valid(r, h)
    ensures 0 < r.size == |r.slots| && h.released <= |h.submitted|
  {
  }

  /** What the consumer reads before a release is the next stretch of what was submitted. */
  lemma Passed<T>(r: Ring<T>, h: History<T>, nb: nat)
    requires Valid(r, h) && h.released + nb <= h.peeked
    ensures 0 < r.size == |r.slots| && h.released + nb <= |h.submitted|
    ensures Values(r, r.consumer, nb) == h.submitted[h.released..h.released + nb]
  {
    hide Values, IsPow2;
    Pow2Positive(r.size);
    var c := h.released;
    ValuesAre(r, c, nb);
    var s := Values(r, r.consumer, nb);
    forall k | 0 <= k < nb ensures s[k] == h.submitted[c + k] {
      assert s[k] == r.slots[(c + k) % r.size];
    }
  }

  ghost predicate Legal<T>(w: World<T>, run: seq<Action<T>>)
    decreases |run|
  {
    run == [] || (0 < w.r.size == |w.r.slots| && Allowed(w.h, run[0]) && Legal(Step(w, run[0]), run[1..]))
  }

  ghost function Run<T>(w: World<T>, run: seq<Action<T>>): World<T>
    requires Legal(w, run)
    decreases |run|
  {
    if run == [] then w else Run(Step(w, run[0]), run[1..])
  }

  /** The last value that a run writes to each entry. */
  function Writes<T>(run: seq<Action<T>>): map<nat, T> {
    if run == [] then map[]
    else (if run[0].DoWrite? then map[run[0].i := run[0].v] else map[]) + Writes(run[1..])
  }

  lemma {:induction false} RunGood<T>(w: World<T>, run: seq<Action<T>>)
    requires Good(w) && Legal(w, run)
    ensures Good(Run(w, run)) && Run(w, run).h.written == w.h.written + Writes(run)
    ensures w.h.submitted <= Run(w, run).h.submitted && w.received <= Run(w, run).received
    decreases |run|
  {
    hide Good, Step, Allowed;
    if run != [] {
      StepGood(w, run[0]);
      RunGood(Step(w, run[0]), run[1..]);
      assert [run[0]][1..] == [];
    }
  }

  /** After any interleaving of any length, across any number of wrap-arounds, the consumer
      has received exactly the first `released` of the submitted values, in order, and each
      entry that was written has been received with the last value written to it. */
  lemma EveryRunDelivers<T>(w: World<T>, run: seq<Action<T>>)
    requires Good(w) && Legal(w, run)
    ensures var w' := Run(w, run);
            && Good(w') && w.h.submitted <= w'.h.submitted && w.received <= w'.received
            && |w'.received| == w'.h.released && w'.received <= w'.h.submitted
            && forall i :: i in Writes(run) && i < |w'.received| ==> w'.received[i] == Writes(run)[i]
  {
    hide Writes, Legal, Run, Step;
    RunGood(w, run);
    var w' := Run(w, run);
    forall i | i in Writes(run) && i < |w'.received| ensures w'.received[i] == Writes(run)[i] {
      assert WriteKept(w'.r, w'.h, i);
    }
  }

  /** The state that `xsk_umem__create` and `xsk_socket__create` set up: all counters zero,
      the producer's copy of the consumer's counter ahead by the ring size. */
  function Initial<T>(size: nat, slots: seq<T>): Ring<T> {
    Ring(size, slots, 0, 0, 0, size, 0, 0)
  }

  lemma InitialGood<T>(size: nat, slots: seq<T>)
    requires IsPow2(size) && size < U32 && |slots| == size
    ensures Good(World(Initial(size, slots), History(0, [], 0, 0, 0, 0, map[]), []))
  {
  }
}
