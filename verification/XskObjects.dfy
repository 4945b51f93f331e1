/** The functions of `xsk.h` as methods that change the rings in place.  Each is proved to
    take the step that module `XskRing` reasons about. */
module XskObjects {
  import opened Common
  import opened Bits
  import opened XskRing
  import Spec = XskRing

  /** Both ends of one ring: the memory they share, and the private words of
      `struct xsk_ring_prod` and `struct xsk_ring_cons`. */
  class SharedRing<T> {
    const size: nat
    const ring: array<T>
    var producer: nat
    var consumer: nat
    var prodProd: nat
    var prodCons: nat
    var consProd: nat
    var consCons: nat
    ghost var h: History<T>

    ghost function View(): Ring<T>
      reads this, ring
    {
      Ring(size, ring[..], producer, consumer, prodProd, prodCons, consProd, consCons)
    }

    ghost predicate Ok()
      reads this, ring
    {
      Valid(View(), h)
    }

    constructor (size: nat, fill: T)
      requires IsPow2(size) && size < U32
      ensures Ok() && View() == Initial(size, View().slots) && h == History(0, [], 0, 0, 0, 0, map[]) && fresh(ring)
    {
      this.size := size;
      ring := new T[size](_ => fill);
      producer, consumer, prodProd, prodCons, consProd, consCons := 0, 0, 0, size, 0, 0;
      h := History(0, [], 0, 0, 0, 0, map[]);
    }

    method ProdNbFree(nb: nat) returns (free: nat)
      requires nb < U32
      modifies this`prodCons
      ensures (View(), free) == Spec.ProdNbFree(old(View()), nb)
    {
      free := Sub32(prodCons, prodProd);
      if free >= nb {
        return;
      }
      prodCons := Add32(consumer, size);
      free := Sub32(prodCons, prodProd);
    }

    /** Returns `nb` and the first index reserved, or 0. */
    method Reserve(nb: nat) returns (got: nat, idx: nat)
      requires Ok()
      modifies this`prodCons, this`prodProd, this`h
      ensures Ok() && (View(), got) == Spec.Reserve(old(View()), nb) && h == Reserved(old(View()), old(h), nb)
      ensures got == nb || got == 0
      ensures got != nb ==> old(h).released + size - old(h).reserved < nb
      ensures got == nb ==> idx == old(h).reserved % U32
      ensures var seen := if old(h).seenCons + size - old(h).reserved >= nb % U32 then old(h).seenCons
                          else old(h).released;
              got == if seen + size - old(h).reserved >= nb then nb else 0
    {
      hide Valid, Spec.ProdNbFree, Sub32, Add32;
      ReserveOk(View(), h, nb);
      ReservedIndex(View(), h);
      idx := prodProd;
      ghost var h' := Reserved(View(), h, nb);
      var free := ProdNbFree(nb % U32);
      h := h';
      if free < nb {
        return 0, idx;
      }
      prodProd := Add32(prodProd, nb);
      got := nb;
    }

    /** `*xsk_ring_prod__fill_addr(r, idx) = v`, for the reserved entry with true index `i`. */
    method Store(idx: nat, v: T, ghost i: nat)
      requires Ok() && idx == i % U32 && |h.submitted| <= i < h.reserved
      modifies ring, this`h
      ensures Ok() && size > 0 && View() == Write(old(View()), idx, v) && h == Wrote(old(h), i, v)
    {
      hide SlotOf;
      WriteOk(View(), h, i, v);
      SlotOfWrapped(View(), i);
      ghost var r := View();
      ring[And(idx, size - 1)] := v;
      StoredAt(r, View(), idx, v);
      h := Wrote(h, i, v);
    }

    method Submit(nb: nat)
      requires Ok() && |h.submitted| + nb <= h.reserved
      modifies this`producer, this`h
      ensures Ok() && View() == Spec.Submit(old(View()), nb) && size > 0 && h == Submitted(old(View()), old(h), nb)
    {
      hide Valid, Values, Add32;
      SizePositive(View(), h);
      SubmitOk(View(), h, nb);
      h := Submitted(View(), h, nb);
      producer := Add32(producer, nb);
    }

    method ConsNbAvail(nb: nat) returns (entries: nat)
      requires nb < U32
      modifies this`consProd
      ensures (View(), entries) == Spec.ConsNbAvail(old(View()), nb)
    {
      entries := Sub32(consProd, consCons);
      if entries == 0 {
        consProd := producer;
        entries := Sub32(consProd, consCons);
      }
      entries := if entries > nb then nb else entries;
    }

    /** Returns how many entries may be read, and the first of them. */
    method Peek(nb: nat) returns (got: nat, idx: nat)
      requires Ok()
      modifies this`consProd, this`consCons, this`h
      ensures Ok() && (View(), got) == Spec.Peek(old(View()), nb) && h == Peeked(old(View()), old(h), nb)
      ensures old(h).peeked + got == h.peeked <= |h.submitted|
      ensures got > 0 ==> idx == old(h).peeked % U32
      ensures got == 0 ==> nb % U32 == 0 || h.peeked == |h.submitted|
      ensures var seen := if old(h).seenProd == old(h).peeked then |old(h).submitted| else old(h).seenProd;
              got == if nb % U32 < seen - old(h).peeked then nb % U32 else seen - old(h).peeked
    {
      hide Valid, Spec.ConsNbAvail, Sub32, Add32;
      PeekOk(View(), h, nb);
      ReservedIndex(View(), h);
      idx := consCons;
      ghost var h' := Peeked(View(), h, nb);
      got := ConsNbAvail(nb % U32);
      h := h';
      if got > 0 {
        consCons := Add32(consCons, got);
      }
    }

    /** `*xsk_ring_cons__comp_addr(r, idx)`, for the peeked entry with true index `i`. */
    method Load(idx: nat, ghost i: nat) returns (v: T)
      requires Ok() && idx == i % U32 && h.released <= i < h.peeked
      ensures i < |h.submitted| && v == h.submitted[i] && (i in h.written ==> v == h.written[i])
    {
      ReadOk(View(), h, i);
      v := ring[And(idx, size - 1)];
    }

    method Release(nb: nat)
      requires Ok() && h.released + nb <= h.peeked
      modifies this`consumer, this`h
      ensures Ok() && View() == Spec.Release(old(View()), nb) && h == old(h).(released := old(h).released + nb)
    {
      hide Valid, Add32;
      ReleaseOk(View(), h, nb);
      h := h.(released := h.released + nb);
      consumer := Add32(consumer, nb);
    }
  }

  lemma ReservedIndex<T>(r: Ring<T>, h: History<T>)
    requires Valid(r, h)
    ensures r.prodProd == h.reserved % U32 && r.consCons == h.peeked % U32 && h.peeked <= |h.submitted|
  {
  }

  lemma SizePositive<T>(r: Ring<T>, h: History<T>)
    requires Valid(r, h)
    ensures 0 < r.size == |r.slots|
  {
  }

  lemma StoredAt<T>(r: Ring<T>, r': Ring<T>, idx: nat, v: T)
    requires 0 < r.size == |r.slots| && r' == r.(slots := r'.slots) && r'.slots == r.slots[And(idx, r.size - 1) := v]
    ensures r' == Write(r, idx, v)
  {
  }
}
