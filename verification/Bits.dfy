/** Bitwise operators of unsigned machine words, defined digit by digit on nat, and the
    identities the cache geometry relies on. A shift by k is a product or quotient by Pow2(k). */
module Bits {
  import Counting

  function Pow2(k: nat): (p: nat)
    ensures p >= 1
  {
    if k == 0 then 1 else 2 * Pow2(k - 1)
  }

  lemma Quotient(x: nat, d: nat)
    requires d > 0
    ensures x / d >= 0
  {
  }

  function ShiftRight(x: nat, k: nat): nat {
    Quotient(x, Pow2(k));
    x / Pow2(k)
  }

  function ShiftLeft(x: nat, k: nat): nat {
    x * Pow2(k)
  }

  function And(x: nat, y: nat): nat {
    if x == 0 || y == 0 then 0
    else 2 * And(x / 2, y / 2) + if x % 2 == 1 && y % 2 == 1 then 1 else 0
  }

  function Or(x: nat, y: nat): nat
    decreases x
  {
    if x == 0 then y
    else if y == 0 then x
    else 2 * Or(x / 2, y / 2) + if x % 2 == 1 || y % 2 == 1 then 1 else 0
  }

  lemma {:induction false} MaskIsModulo(x: nat, k: nat)
    ensures And(x, Pow2(k) - 1) == x % Pow2(k)
    decreases k
  {
    if k == 0 {
    } else {
      var half := Pow2(k - 1);
      MaskIsModulo(x / 2, k - 1);
      AndOdd(x, half);
      ModuloHalf(x, half);
    }
  }

  lemma AndOdd(x: nat, half: nat)
    requires half > 0
    ensures And(x, 2 * half - 1) == 2 * And(x / 2, half - 1) + x % 2
  {
    assert (2 * half - 1) / 2 == half - 1;
  }

  lemma ModuloHalf(x: nat, half: nat)
    requires half > 0
    ensures x % (2 * half) == 2 * (x / 2 % half) + x % 2
  {
    var q, r := x / 2 / half, x / 2 % half;
    assert x / 2 == q * half + r;
    assert q * (2 * half) == 2 * (q * half);
    ModuloUnique(x, 2 * half, q, 2 * r + x % 2);
  }

  lemma ModuloUnique(x: nat, d: nat, q: nat, r: nat)
    requires r < d && x == q * d + r
    ensures x % d == r && x / d == q
  {
    var q' := x / d;
    assert q' * d <= x < (q' + 1) * d;
    if q > q' { Counting.MulLe(q' + 1, q, d); }
    if q < q' { Counting.MulLe(q + 1, q', d); }
  }

  lemma {:induction false} JoinIsSum(t: nat, k: nat, s: nat)
    requires s < Pow2(k)
    ensures Or(t * Pow2(k), s) == t * Pow2(k) + s
    decreases k
  {
    if k == 0 || t == 0 {
    } else if s == 0 {
      assert Or(t * Pow2(k), 0) == t * Pow2(k);
    } else {
      var x := t * Pow2(k - 1);
      DoubledProduct(t, k);
      JoinIsSum(t, k - 1, s / 2);
      OrOfEven(x, s);
    }
  }

  lemma DoubledProduct(t: nat, k: nat)
    requires t > 0 && k > 0
    ensures t * Pow2(k) == 2 * (t * Pow2(k - 1)) && t * Pow2(k - 1) > 0
  {
    var half := Pow2(k - 1);
    assert t * (2 * half) == 2 * (t * half);
    Counting.MulLe(1, t, half);
  }

  lemma OrOfEven(x: nat, s: nat)
    requires x > 0 && s > 0
    ensures Or(2 * x, s) == 2 * Or(x, s / 2) + s % 2
  {
    assert 2 * x / 2 == x;
  }

  ghost predicate IsPow2(v: nat) {
    exists k: nat :: v == Pow2(k)
  }

  /** The test `(v & (v - 1)) == 0` accepts exactly the powers of two. */
  lemma {:induction false} PowerTest(v: nat)
    requires v > 0
    ensures And(v, v - 1) == 0 <==> IsPow2(v)
  {
    if v == 1 {
      assert v == Pow2(0);
    } else if v % 2 == 1 {
      OddAnd(v);
      OddIsNoPower(v);
    } else {
      PowerTest(v / 2);
      EvenAnd(v);
      HalfPower(v);
    }
  }

  lemma OddIsNoPower(v: nat)
    requires v % 2 == 1 && v > 1
    ensures !IsPow2(v)
  {
    forall k: nat ensures v != Pow2(k) {
      EvenPower(v, k);
    }
  }

  lemma EvenPower(v: nat, k: nat)
    requires v % 2 == 1 && v > 1
    ensures v != Pow2(k)
  {
    if k > 0 {
      var half := Pow2(k - 1);
      assert Pow2(k) == 2 * half;
    }
  }

  lemma EvenAnd(v: nat)
    requires v % 2 == 0 && v > 0
    ensures And(v, v - 1) == 2 * And(v / 2, v / 2 - 1)
  {
    Halves(v);
    AndStep(v, v - 1);
  }

  lemma Halves(v: nat)
    requires v % 2 == 0 && v > 0
    ensures (v - 1) / 2 == v / 2 - 1 && (v - 1) % 2 == 1
  {
  }

  lemma AndStep(x: nat, y: nat)
    requires x > 0 && y > 0
    ensures And(x, y) == 2 * And(x / 2, y / 2) + if x % 2 == 1 && y % 2 == 1 then 1 else 0
  {
  }

  lemma HalfPower(v: nat)
    requires v % 2 == 0 && v > 0
    ensures IsPow2(v) <==> IsPow2(v / 2)
  {
    if IsPow2(v / 2) {
      var k: nat :| v / 2 == Pow2(k);
      assert v == Pow2(k + 1);
    }
    if IsPow2(v) {
      var k: nat :| v == Pow2(k);
      assert v / 2 == Pow2(k - 1);
    }
  }

  lemma OddAnd(v: nat)
    requires v % 2 == 1 && v > 1
    ensures And(v, v - 1) != 0
  {
    assert And(v, v - 1) == 2 * And(v / 2, v / 2);
    AndSelf(v / 2);
  }

  lemma {:induction false} AndSelf(v: nat)
    ensures And(v, v) == v
  {
    if v > 0 { AndSelf(v / 2); }
  }

  lemma {:induction false} Pow2Monotone(i: nat, j: nat)
    requires i < j
    ensures Pow2(i) < Pow2(j)
    decreases j
  {
    if i < j - 1 { Pow2Monotone(i, j - 1); }
  }

  lemma {:induction false} Pow2Product(i: nat, j: nat)
    ensures Pow2(i + j) == Pow2(i) * Pow2(j)
    decreases j
  {
    if j == 0 {
    } else {
      Pow2Product(i, j - 1);
      DoubledProduct(Pow2(i), j);
    }
  }

  lemma Pow2Of32()
    ensures Pow2(32) == 0x1_0000_0000
  {
    assert Pow2(8) == 256;
    Pow2Product(8, 8);
    Pow2Product(16, 16);
  }

  /** A power of two either fits in 32 bits or truncates to zero. */
  lemma PowerTruncates(v: nat)
    requires IsPow2(v) && v >= 0x1_0000_0000
    ensures v % 0x1_0000_0000 == 0
  {
    var k: nat :| v == Pow2(k);
    Pow2Of32();
    if k < 32 {
      Pow2Monotone(k, 32);
    }
    Pow2Product(32, k - 32);
    ModuloUnique(v, 0x1_0000_0000, Pow2(k - 32), 0);
  }

  /** The shifting loop that counts how often v can be halved before reaching one. */
  method Log2(v: nat) returns (r: nat)
    requires v > 0
    ensures Pow2(r) <= v < Pow2(r + 1)
    ensures IsPow2(v) ==> v == Pow2(r)
  {
    r := 0;
    var rest := v;
    while rest > 1
      invariant rest >= 1
      invariant rest * Pow2(r) <= v < (rest + 1) * Pow2(r)
    {
      HalveStep(v, rest, r);
      rest := rest / 2;
      r := r + 1;
    }
    if IsPow2(v) {
      ghost var k: nat :| v == Pow2(k);
      if k < r { Pow2Monotone(k, r); }
      if k > r + 1 { Pow2Monotone(r + 1, k); }
    }
  }

  lemma HalveStep(v: nat, rest: nat, r: nat)
    requires rest * Pow2(r) <= v < (rest + 1) * Pow2(r)
    ensures rest / 2 * Pow2(r + 1) <= v < (rest / 2 + 1) * Pow2(r + 1)
  {
    var p, h := Pow2(r), rest / 2;
    assert Pow2(r + 1) == 2 * p;
    Regroup(h, p);
    Regroup(h + 1, p);
    Counting.MulLe(2 * h, rest, p);
    Counting.MulLe(rest + 1, 2 * (h + 1), p);
  }

  lemma Regroup(h: nat, p: nat)
    ensures h * (2 * p) == 2 * h * p
  {
  }
}
