/** Bitwise conjunction of natural numbers, for masks of power-of-two tables and rings. */
module Bits {

  function Pow2(k: nat): (r: nat)
    ensures r > 0
  {
    if k == 0 then 1 else 2 * Pow2(k - 1)
  }

  ghost predicate IsPow2(n: nat) {
    exists k: nat :: n == Pow2(k)
  }

  lemma Pow2Positive(n: nat)
    requires IsPow2(n)
    ensures n > 0
  {
  }

  function And(a: nat, b: nat): (r: nat)
    ensures r <= a && r <= b
  {
    if a == 0 || b == 0 then 0 else (a % 2) * (b % 2) + 2 * And(a / 2, b / 2)
  }

  /** Masking with a power of two minus one is the remainder. */
  lemma {:induction false} AndMask(a: nat, k: nat)
    ensures And(a, Pow2(k) - 1) == a % Pow2(k)
  {
    hide And;
    if k == 0 {
      AndZero(a);
    } else {
      var p := Pow2(k - 1);
      AndMask(a / 2, k - 1);
      AndOdd(a, p);
      HalvesMod(a, p);
    }
  }

  lemma AndZero(a: nat)
    ensures And(a, 0) == 0 == a % 1
  {
  }

  lemma AndOdd(a: nat, p: nat)
    requires p > 0
    ensures And(a, 2 * p - 1) == a % 2 + 2 * And(a / 2, p - 1)
  {
    assert (2 * p - 1) / 2 == p - 1 && (2 * p - 1) % 2 == 1;
    assert a % 2 * 1 == a % 2;
  }

  lemma HalvesMod(a: nat, p: nat)
    requires p > 0
    ensures a % (2 * p) == a % 2 + 2 * (a / 2 % p)
  {
    var h, q := a / 2, a / 2 / p;
    assert h == q * p + h % p;
    assert a == (2 * p) * q + (a % 2 + 2 * (h % p));
    RemainderIs(a, 2 * p, q, a % 2 + 2 * (h % p));
  }

  lemma RemainderIs(a: int, n: nat, q: int, r: nat)
    requires n > 0 && a == n * q + r && r < n
    ensures a % n == r && a / n == q
  {
    var q', r' := a / n, a % n;
    var d := q - q';
    assert a == n * q' + r';
    assert n * d == n * q - n * q';
    if d >= 1 {
      ProductAtLeast(n, d);
    } else if d <= -1 {
      assert n * (-d) == -(n * d);
      ProductAtLeast(n, -d);
    }
  }

  lemma ProductAtLeast(n: nat, d: int)
    requires d >= 1
    ensures n * d >= n
  {
  }

  lemma {:induction false} Pow2Monotone(j: nat, k: nat)
    requires j <= k
    ensures Pow2(j) <= Pow2(k)
  {
    if j < k {
      Pow2Monotone(j, k - 1);
    }
  }

  lemma Pow2None()
    ensures Pow2(0) == 1
  {
  }

  lemma Pow2Next(k: nat)
    ensures Pow2(k + 1) == 2 * Pow2(k)
  {
  }

  lemma TwiceProduct(a: nat, b: nat)
    ensures 2 * (a * b) == a * (2 * b)
  {
  }

  lemma {:induction false} Pow2Splits(j: nat, k: nat)
    requires j <= k
    ensures Pow2(k) == Pow2(j) * Pow2(k - j)
    decreases k
  {
    hide Pow2;
    if j < k {
      Pow2Splits(j, k - 1);
      Pow2Next(k - 1);
      Pow2Next(k - 1 - j);
      TwiceProduct(Pow2(j), Pow2(k - 1 - j));
    } else {
      assert k - j == 0;
      Pow2None();
    }
  }

  lemma RemainderOfRemainder(i: nat, n: nat, q: nat)
    requires n > 0 && q > 0
    ensures n * q > 0 && i % (n * q) % n == i % n
  {
    ProductAtLeast(n, q);
    var m := n * q;
    var r := i % m;
    assert i == m * (i / m) + r;
    assert r == n * (r / n) + r % n;
    var a := q * (i / m);
    assert m * (i / m) == n * a;
    assert i == n * (a + r / n) + r % n;
    RemainderIs(i, n, a + r / n, r % n);
  }

  /** Masking a counter that wraps at a power of two finds the remainder of the true count. */
  lemma MaskOfWrapped(i: nat, k: nat, w: nat)
    requires k <= w
    ensures And(i % Pow2(w), Pow2(k) - 1) == i % Pow2(k)
  {
    hide Pow2, And;
    Pow2Splits(k, w);
    RemainderOfRemainder(i, Pow2(k), Pow2(w - k));
    AndMask(i % Pow2(w), k);
  }

  lemma Pow2At32()
    ensures Pow2(32) == 0x1_0000_0000
  {
    assert Pow2(8) == 256;
    assert Pow2(16) == 0x1_0000;
    assert Pow2(24) == 0x100_0000;
  }

  lemma Pow2At64()
    ensures Pow2(64) == 0x1_0000_0000_0000_0000 && Pow2(65) == 2 * Pow2(64)
  {
    Pow2At32();
    Pow2Splits(32, 64);
  }

  function Xor(a: nat, b: nat): nat
    decreases a + b
  {
    if a == 0 && b == 0 then 0 else (a + b) % 2 + 2 * Xor(a / 2, b / 2)
  }

  /** Applying the same bits twice changes nothing. */
  lemma {:induction false} XorUndone(a: nat, b: nat)
    ensures Xor(Xor(a, b), b) == a
    decreases a + b
  {
    hide Xor;
    if a == 0 && b == 0 {
      XorZero();
    } else {
      var x, y := Xor(a / 2, b / 2), Xor(a, b);
      XorStep(a, b);
      assert y / 2 == x && (y + b) % 2 == a % 2;
      XorUndone(a / 2, b / 2);
      XorStep(y, b);
    }
  }

  lemma {:induction false} XorNone(a: nat)
    ensures Xor(a, 0) == a
  {
    if a > 0 {
      XorNone(a / 2);
    }
  }

  lemma {:induction false} XorSwap(a: nat, b: nat)
    ensures Xor(a, b) == Xor(b, a)
    decreases a + b
  {
    if a > 0 || b > 0 {
      XorSwap(a / 2, b / 2);
    }
  }

  lemma XorZero()
    ensures Xor(0, 0) == 0
  {
  }

  lemma XorStep(a: nat, b: nat)
    ensures Xor(a, b) == (a + b) % 2 + 2 * Xor(a / 2, b / 2)
  {
  }

  lemma {:induction false} XorBound(a: nat, b: nat, k: nat)
    requires a < Pow2(k) && b < Pow2(k)
    ensures Xor(a, b) < Pow2(k)
    decreases k
  {
    if k > 0 {
      XorStep(a, b);
      XorBound(a / 2, b / 2, k - 1);
    }
  }

  lemma {:induction false} XorInjective(a: nat, b: nat, c: nat)
    requires Xor(a, c) == Xor(b, c)
    ensures a == b
  {
    XorUndone(a, c);
    XorUndone(b, c);
  }

  function Or(a: nat, b: nat): nat
    decreases a + b
  {
    if a == 0 && b == 0 then 0
    else (if a % 2 == 1 || b % 2 == 1 then 1 else 0) + 2 * Or(a / 2, b / 2)
  }

  lemma OrStep(a: nat, b: nat)
    ensures Or(a, b) == (if a % 2 == 1 || b % 2 == 1 then 1 else 0) + 2 * Or(a / 2, b / 2)
  {
  }

  lemma {:induction false} OrZero(a: nat)
    ensures Or(a, 0) == a
  {
    if a > 0 {
      OrZero(a / 2);
    }
  }

  /** Bits put below a shifted number do not meet it. */
  lemma {:induction false} OrBelow(h: nat, l: nat, k: nat)
    requires l < Pow2(k)
    ensures Or(h * Pow2(k), l) == h * Pow2(k) + l
    decreases k
  {
    hide Or;
    if k == 0 {
      OrZero(h);
    } else {
      var half := h * Pow2(k - 1);
      assert h * Pow2(k) == 2 * half by {
        assert h * (2 * Pow2(k - 1)) == 2 * (h * Pow2(k - 1));
      }
      OrBelow(h, l / 2, k - 1);
      OrStep(2 * half, l);
    }
  }
}
