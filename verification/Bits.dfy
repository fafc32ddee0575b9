/** Bitwise arithmetic on natural numbers, as the allocators use it on 64-bit words. */
module Bits {

  const WORD := 0x1_0000_0000_0000_0000

  function Pow2(k: nat): (r: nat)
    ensures r >= 1
  {
    if k == 0 then 1 else 2 * Pow2(k - 1)
  }

  /** `x >> s` */
  function Shr(x: nat, s: nat): nat {
    if s == 0 then x else Shr(x / 2, s - 1)
  }

  predicate Bit(x: nat, i: nat) {
    Shr(x, i) % 2 == 1
  }

  function And(a: nat, b: nat): nat {
    if a == 0 || b == 0 then 0
    else 2 * And(a / 2, b / 2) + if a % 2 == 1 && b % 2 == 1 then 1 else 0
  }

  function Or(a: nat, b: nat): nat
    decreases a + b
  {
    if a == 0 && b == 0 then 0
    else 2 * Or(a / 2, b / 2) + if a % 2 == 1 || b % 2 == 1 then 1 else 0
  }

  function Xor(a: nat, b: nat): nat
    decreases a + b
  {
    if a == 0 && b == 0 then 0
    else 2 * Xor(a / 2, b / 2) + if a % 2 != b % 2 then 1 else 0
  }

  lemma {:induction false} Pow2Monotonic(a: nat, b: nat)
    requires a <= b
    ensures Pow2(a) <= Pow2(b)
  {
    if a < b {
      Pow2Monotonic(a, b - 1);
    }
  }

  lemma {:induction false} Pow2Injective(a: nat, b: nat)
    requires Pow2(a) == Pow2(b)
    ensures a == b
  {
    if a < b {
      Pow2Monotonic(a, b - 1);
    } else if b < a {
      Pow2Monotonic(b, a - 1);
    }
  }

  lemma {:induction false} Pow2Add(a: nat, b: nat)
    ensures Pow2(a + b) == Pow2(a) * Pow2(b)
  {
    if a > 0 {
      Pow2Add(a - 1, b);
      assert Pow2(a + b) == 2 * Pow2(a - 1 + b);
    }
  }

  lemma {:induction false} Pow2Above(x: nat)
    ensures x < Pow2(x)
  {
    if x > 0 {
      Pow2Above(x - 1);
    }
  }

  lemma {:induction false} ShrIsDivision(x: nat, s: nat)
    ensures Shr(x, s) == x / Pow2(s)
    ensures x == Shr(x, s) * Pow2(s) + x % Pow2(s)
  {
    if s > 0 {
      var d := Pow2(s - 1);
      assert Pow2(s) == 2 * d && Shr(x, s) == Shr(x / 2, s - 1);
      ShrIsDivision(x / 2, s - 1);
      hide *;
      HalveDivision(x, d);
      DivisionParts(x, 2 * d);
    } else {
      DivisionParts(x, 1);
    }
  }

  lemma DivisionParts(x: nat, d: nat)
    requires d >= 1
    ensures x == (x / d) * d + x % d
  {
  }

  lemma HalveDivision(x: nat, d: nat)
    requires d >= 1
    ensures x / 2 / d == x / (2 * d)
  {
    var q, r := x / (2 * d), x % (2 * d);
    assert x == q * (2 * d) + r;
    assert x == 2 * (q * d) + r;
    assert x / 2 == q * d + r / 2;
    assert 0 <= r / 2 < d;
    QuotientUnique(x / 2, d, q, r / 2);
  }

  lemma QuotientUnique(x: nat, d: nat, q: nat, r: nat)
    requires d >= 1 && x == q * d + r && r < d
    ensures x / d == q && x % d == r
  {
    var q', r' := x / d, x % d;
    assert x == q' * d + r';
    if q > q' {
      MulMonotonic(q' + 1, q, d);
    } else if q < q' {
      MulMonotonic(q + 1, q', d);
    }
  }

  lemma QuotientPositive(a: nat, b: nat)
    requires 0 < b <= a
    ensures a / b >= 1
  {
    var q, r := a / b, a % b;
    assert a == q * b + r;
    assert q == 0 ==> a == r;
  }

  lemma MulMonotonic(a: nat, b: nat, d: nat)
    requires a <= b
    ensures a * d <= b * d
    ensures (a + 1) * d == a * d + d
  {
    assert b * d == a * d + (b - a) * d;
  }

  lemma {:induction false} ShrShr(x: nat, s: nat, t: nat)
    ensures Shr(Shr(x, s), t) == Shr(x, s + t)
  {
    if s > 0 {
      ShrShr(x / 2, s - 1, t);
    }
  }

  lemma {:induction false} ShrAtMost(x: nat, s: nat)
    ensures Shr(x, s) <= x
  {
    if s > 0 {
      ShrAtMost(x / 2, s - 1);
    }
  }

  lemma BitOfSmear(x: nat, t: nat, i: nat)
    ensures Bit(Or(x, Shr(x, t)), i) <==> Bit(x, i) || Bit(x, i + t)
  {
    BitOfOr(x, Shr(x, t), i);
    ShrShr(x, t, i);
  }

  lemma {:induction false} ShrZero(s: nat)
    ensures Shr(0, s) == 0
  {
    if s > 0 {
      ShrZero(s - 1);
    }
  }

  lemma {:induction false} BitOfOr(a: nat, b: nat, i: nat)
    ensures Bit(Or(a, b), i) <==> Bit(a, i) || Bit(b, i)
    decreases i
  {
    if a == 0 && b == 0 {
      ShrZero(i);
    } else if i > 0 {
      BitOfOr(a / 2, b / 2, i - 1);
    }
  }

  lemma {:induction false} OrBelow(a: nat, b: nat, n: nat)
    requires a < Pow2(n) && b < Pow2(n)
    ensures Or(a, b) < Pow2(n)
  {
    if n > 0 && (a != 0 || b != 0) {
      OrBelow(a / 2, b / 2, n - 1);
    }
  }

  lemma {:induction false} AllOnes(x: nat, n: nat)
    requires x < Pow2(n)
    requires forall i :: 0 <= i < n ==> Bit(x, i)
    ensures x == Pow2(n) - 1
  {
    if n > 0 {
      forall i | 0 <= i < n - 1
        ensures Bit(x / 2, i)
      {
        assert Bit(x, i + 1);
      }
      AllOnes(x / 2, n - 1);
      assert Bit(x, 0);
    }
  }

  lemma {:induction false} TopBit(x: nat, h: nat)
    requires Pow2(h) <= x < Pow2(h + 1)
    ensures Bit(x, h)
  {
    if h > 0 {
      TopBit(x / 2, h - 1);
      assert Shr(x, h) == Shr(x / 2, h - 1);
    }
  }

  ghost predicate IsPow2(x: nat) {
    exists k: nat :: x == Pow2(k)
  }

  lemma HalfOfPow2(x: nat)
    requires x >= 1
    ensures IsPow2(2 * x) <==> IsPow2(x)
    ensures !IsPow2(2 * x + 1)
  {
    if k: nat :| x == Pow2(k) {
      assert 2 * x == Pow2(k + 1);
    }
    forall k: nat
      ensures 2 * x == Pow2(k) ==> IsPow2(x)
      ensures 2 * x + 1 != Pow2(k)
    {
      if k > 0 {
        var j: nat := k - 1;
        assert Pow2(k) == 2 * Pow2(j);
      }
    }
  }

  lemma {:induction false} AndWithPredecessor(x: nat)
    requires x >= 1
    ensures And(x, x - 1) == 0 <==> IsPow2(x)
  {
    if x == 1 {
      assert x == Pow2(0);
    } else {
      HalfOfPow2(x / 2);
      AndWithPredecessor(x / 2);
      AndSelf(x / 2);
      if x % 2 == 0 {
        assert (x - 1) / 2 == x / 2 - 1;
        assert And(x, x - 1) == 2 * And(x / 2, x / 2 - 1);
      } else {
        assert And(x, x - 1) == 2 * And(x / 2, x / 2);
      }
    }
  }

  lemma {:induction false} AndSelf(x: nat)
    ensures And(x, x) == x
  {
    if x > 0 {
      AndSelf(x / 2);
    }
  }

  lemma {:induction false} XorZero(a: nat)
    ensures Xor(a, 0) == a
  {
    if a > 0 {
      XorZero(a / 2);
    }
  }

  /** Flipping bit k of a multiple of 2^k moves to the other half of the enclosing 2^(k+1) block. */
  lemma {:induction false} XorIsSibling(i: nat, k: nat)
    ensures Xor(i * Pow2(k), Pow2(k)) == (if i % 2 == 0 then i + 1 else i - 1) * Pow2(k)
  {
    var j := if i % 2 == 0 then i + 1 else i - 1;
    if k == 0 {
      XorZero(i / 2);
    } else {
      XorIsSibling(i, k - 1);
      var p := Pow2(k - 1);
      Doubling(i, p);
      Doubling(j, p);
      assert Pow2(k) == 2 * p;
      hide *;
      XorOfDoubles(i * p, p);
    }
  }

  lemma Doubling(i: nat, p: nat)
    ensures i * (2 * p) == 2 * (i * p)
  {
  }

  lemma XorOfDoubles(a: nat, b: nat)
    ensures Xor(2 * a, 2 * b) == 2 * Xor(a, b)
  {
    assert (2 * a) / 2 == a && (2 * b) / 2 == b;
  }

  /** `x << s` */
  function Shl(x: nat, s: nat): nat {
    x * Pow2(s)
  }

  /** `|` of numbers without a common bit is their sum. */
  lemma {:induction false} OrDisjoint(a: nat, b: nat, k: nat)
    requires b < Pow2(k)
    ensures Or(Shl(a, k), b) == Shl(a, k) + b
  {
    if k == 0 {
      OrZero(a);
    } else {
      Doubling(a, Pow2(k - 1));
      OrDisjoint(a, b / 2, k - 1);
      OrHalves(Shl(a, k - 1), b);
    }
  }

  lemma {:induction false} OrZero(a: nat)
    ensures Or(a, 0) == a
  {
    if a > 0 {
      OrZero(a / 2);
    }
  }

  lemma OrHalves(a: nat, b: nat)
    ensures Or(2 * a, b) == 2 * Or(a, b / 2) + b % 2
  {
    assert (2 * a) / 2 == a;
  }

  /** `(u64) log2(x)` */
  function Log2(x: nat): (k: nat)
    requires x >= 1
    ensures Pow2(k) <= x < 2 * Pow2(k)
  {
    if x == 1 then 0 else Log2(x / 2) + 1
  }

  lemma Log2OfPow2(x: nat)
    requires x >= 1
    ensures Pow2(Log2(x)) == x <==> IsPow2(x)
  {
    if IsPow2(x) {
      var k: nat :| x == Pow2(k);
      var j := Log2(x);
      if j < k {
        Pow2Monotonic(j + 1, k);
      } else if k < j {
        Pow2Monotonic(k + 1, j);
      }
    }
  }
}
