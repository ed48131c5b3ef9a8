/** Shifts and bitwise operators on natural numbers, and the arithmetic they stand for. */
module Bits {
  function Pow2(k: nat): (p: nat)
    ensures p > 0
  {
    if k == 0 then 1 else 2 * Pow2(k - 1)
  }

  function Shr(x: nat, k: nat): nat {
    if k == 0 then x else Shr(x / 2, k - 1)
  }

  function And(a: nat, b: nat): nat {
    if a == 0 || b == 0 then 0 else a % 2 * (b % 2) + 2 * And(a / 2, b / 2)
  }

  function Or(a: nat, b: nat): nat
    decreases a + b
  {
    if a == 0 then b
    else if b == 0 then a
    else (if a % 2 == 1 || b % 2 == 1 then 1 else 0) + 2 * Or(a / 2, b / 2)
  }

  lemma MulMono(p: int, a: int, b: int)
    requires p > 0 && a <= b
    ensures p * a <= p * b
  {
  }

  lemma QuotientUnique(x: int, p: int, q: int, r: int)
    requires p > 0 && x == p * q + r && 0 <= r < p
    ensures x / p == q && x % p == r
  {
    var d := q - x / p;
    assert p * d == x % p - r;
    if d <= -1 {
      MulMono(p, d, -1);
      assert false;
    } else if d >= 1 {
      MulMono(p, 1, d);
      assert false;
    }
  }

  lemma DivDiv(x: nat, p: nat)
    requires p > 0
    ensures x / 2 / p == x / (2 * p)
  {
    var q := x / (2 * p);
    var r := x % (2 * p);
    assert x == 2 * p * q + r;
    assert x / 2 == p * q + r / 2;
    assert 0 <= r / 2 < p;
    QuotientUnique(x / 2, p, q, r / 2);
  }

  lemma {:induction false} ShrIsDiv(x: nat, k: nat)
    ensures Shr(x, k) == x / Pow2(k)
  {
    if k > 0 {
      ShrIsDiv(x / 2, k - 1);
      DivDiv(x, Pow2(k - 1));
    }
  }

  lemma AndOdd(x: nat, p: nat)
    requires p > 0
    ensures And(x, 2 * p - 1) == x % 2 + 2 * And(x / 2, p - 1)
  {
    var m := 2 * p - 1;
    assert m % 2 == 1 && m / 2 == p - 1;
    if x == 0 {
      assert And(x / 2, p - 1) == 0;
    }
  }

  lemma ModDouble(x: nat, p: nat)
    requires p > 0
    ensures x % (2 * p) == x % 2 + 2 * (x / 2 % p)
  {
    var q := x / 2 / p;
    var r := x / 2 % p;
    assert x / 2 == p * q + r;
    assert x == 2 * (x / 2) + x % 2;
    assert x == 2 * p * q + (x % 2 + 2 * r);
    QuotientUnique(x, 2 * p, q, x % 2 + 2 * r);
  }

  lemma MaskStep(x: nat, p: nat, low: nat)
    requires p > 0 && low == And(x / 2, p - 1) == x / 2 % p
    ensures And(x, 2 * p - 1) == x % (2 * p)
  {
    AndOdd(x, p);
    ModDouble(x, p);
  }

  /** Masking with `2^k - 1` keeps the remainder modulo `2^k`. */
  lemma {:induction false} MaskIsMod(x: nat, k: nat)
    ensures And(x, Pow2(k) - 1) == x % Pow2(k)
  {
    if k > 0 {
      MaskIsMod(x / 2, k - 1);
      MaskStep(x, Pow2(k - 1), And(x / 2, Pow2(k - 1) - 1));
    }
  }

  /** Or-ing in a value below the lowest set bits of `hi` is addition. */
  lemma {:induction false} OrOfDisjoint(hi: nat, k: nat, lo: nat)
    requires lo < Pow2(k) && hi % Pow2(k) == 0
    ensures Or(hi, lo) == hi + lo
  {
    if hi == 0 || lo == 0 {
    } else {
      var p := Pow2(k - 1);
      ModDouble(hi, p);
      OrOfDisjoint(hi / 2, k - 1, lo / 2);
      assert hi % 2 == 0;
      assert Or(hi, lo) == lo % 2 + 2 * (hi / 2 + lo / 2);
    }
  }

  /** Or never sets a bit at or above the width of its operands. */
  lemma {:induction false} OrBound(a: nat, b: nat, k: nat)
    requires a < Pow2(k) && b < Pow2(k)
    ensures Or(a, b) < Pow2(k)
  {
    if a != 0 && b != 0 {
      OrBound(a / 2, b / 2, k - 1);
    }
  }

  /** `ceil(n / 2^k)` by a shift and a mask. */
  function CeilByShift(n: nat, k: nat): nat {
    Shr(n, k) + if And(n, Pow2(k) - 1) != 0 then 1 else 0
  }

  lemma CeilDiv(n: nat, p: nat, c: nat)
    requires p > 0 && c == n / p + if n % p != 0 then 1 else 0
    ensures c * p >= n && (c > 0 ==> (c - 1) * p < n)
  {
    var q := n / p;
    assert n == p * q + n % p;
    if n % p != 0 {
      assert c * p == p * q + p;
    } else {
      assert c * p == n;
      assert (c - 1) * p == c * p - p;
    }
  }

  lemma CeilByShiftIsCeil(n: nat, k: nat)
    ensures CeilByShift(n, k) * Pow2(k) >= n
    ensures CeilByShift(n, k) > 0 ==> (CeilByShift(n, k) - 1) * Pow2(k) < n
  {
    ShrIsDiv(n, k);
    MaskIsMod(n, k);
    CeilDiv(n, Pow2(k), CeilByShift(n, k));
  }

  // ---------- the operators bit by bit ----------

  predicate Bit(x: nat, k: nat) {
    Shr(x, k) % 2 == 1
  }

  lemma {:induction false} ZeroBits(k: nat)
    ensures !Bit(0, k)
  {
    if k > 0 {
      ZeroBits(k - 1);
    }
  }

  /** Each bit of `a & b` is set exactly if it is set in both. */
  lemma {:induction false} AndBits(a: nat, b: nat, k: nat)
    ensures Bit(And(a, b), k) <==> Bit(a, k) && Bit(b, k)
  {
    ZeroBits(k);
    if a != 0 && b != 0 && k > 0 {
      AndBits(a / 2, b / 2, k - 1);
      assert And(a, b) / 2 == And(a / 2, b / 2);
    }
  }

  /** Each bit of `a | b` is set exactly if it is set in one of them. */
  lemma {:induction false} OrBits(a: nat, b: nat, k: nat)
    ensures Bit(Or(a, b), k) <==> Bit(a, k) || Bit(b, k)
  {
    ZeroBits(k);
    if a != 0 && b != 0 && k > 0 {
      OrBits(a / 2, b / 2, k - 1);
      assert Or(a, b) / 2 == Or(a / 2, b / 2);
    }
  }
}
