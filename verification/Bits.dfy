/** The bits of a number, and what arithmetic does to them. */
module Bits {
  import opened Words

  predicate Bit(x: nat, j: nat) { if j == 0 then x % 2 == 1 else Bit(x / 2, j - 1) }

  /** The bits of a number below 2^n determine it. */
  lemma {:induction false} BitsDetermine(x: nat, y: nat, n: nat)
    requires x < Pow2(n) && y < Pow2(n) && forall j :: 0 <= j < n ==> Bit(x, j) == Bit(y, j)
    ensures x == y
    decreases n
  {
    if n > 0 {
      forall j | 0 <= j < n - 1 ensures Bit(x / 2, j) == Bit(y / 2, j) { assert Bit(x, j + 1) == Bit(y, j + 1); }
      BitsDetermine(x / 2, y / 2, n - 1);
      assert Bit(x, 0) == Bit(y, 0);
    }
  }

  lemma {:induction false} HighBits(x: nat, n: nat, j: nat)
    requires x < Pow2(n) && n <= j
    ensures !Bit(x, j)
    decreases j
  {
    if j > 0 { HighBits(x / 2, if n > 0 then n - 1 else 0, j - 1); }
  }

  function AsBit(b: bool): nat { if b then 1 else 0 }

  lemma {:induction false} BitwiseBits(f: (nat, nat) -> bool, x: nat, y: nat, j: nat)
    requires !f(0, 0)
    ensures Bit(Bitwise(f, x, y), j) == f(AsBit(Bit(x, j)), AsBit(Bit(y, j)))
    decreases j
  {
    BitwiseStep(f, x, y);
    hide Bitwise;
    if j > 0 { BitwiseBits(f, x / 2, y / 2, j - 1); }
  }

  lemma AndBits(x: nat, y: nat, j: nat)
    ensures Bit(And(x, y), j) == (Bit(x, j) && Bit(y, j))
  {
    BitwiseBits(AND_BIT, x, y, j);
  }

  lemma OrBits(x: nat, y: nat, j: nat)
    ensures Bit(Or(x, y), j) == (Bit(x, j) || Bit(y, j))
  {
    BitwiseBits(OR_BIT, x, y, j);
  }

  lemma XorBits(x: nat, y: nat, j: nat)
    ensures Bit(Xor(x, y), j) == (Bit(x, j) != Bit(y, j))
  {
    BitwiseBits(XOR_BIT, x, y, j);
  }

  /** Truncation keeps the low bits. */
  lemma {:induction false} LowBits(x: nat, n: nat, j: nat)
    requires j < n
    ensures Bit(x % Pow2(n), j) == Bit(x, j)
    decreases n
  {
    HalfOfMod(x, Pow2(n - 1));
    if j > 0 { LowBits(x / 2, n - 1, j - 1); }
  }

  lemma HalfOfMod(x: nat, p: nat)
    requires p > 0
    ensures (x % (2 * p)) / 2 == (x / 2) % p && (x % (2 * p)) % 2 == x % 2
  {
    var q, r, h := x / (2 * p), x % (2 * p), x / 2;
    assert x == (2 * p) * q + r;
    assert (2 * p) * q == 2 * (p * q);
    assert h == p * q + r / 2 && r / 2 < p;
    ModOf(p, q, r / 2);
  }

  lemma ModOf(p: nat, q: nat, r: nat)
    requires r < p
    ensures (p * q + r) % p == r && (p * q + r) / p == q
  {
    var x := p * q + r;
    SameQuotient(p, x / p, x % p, q, r);
  }

  lemma SameQuotient(p: nat, d: nat, e: nat, q: nat, r: nat)
    requires p * d + e == p * q + r && e < p && r < p
    ensures d == q && e == r
  {
    if d > q { MulGrows(p, q, d); }
    if d < q { MulGrows(p, d, q); }
  }

  lemma {:induction false} MulGrows(p: nat, a: nat, b: nat)
    requires a < b
    ensures p * a + p <= p * b
    decreases b - a
  {
    assert p * b == p * (b - 1) + p;
    if a + 1 < b { MulGrows(p, a, b - 1); }
  }

  // ----- sums -----

  predicate Majority(a: bool, b: bool, c: bool) { (a && b) || (a && c) || (b && c) }

  /** What is carried into column j when b, with its bits inverted if neg, and a
      carry of c are added to a. */
  predicate Carry(a: nat, b: nat, neg: bool, c: bool, j: nat) {
    if j == 0 then c else Majority(Bit(a, j - 1), Bit(b, j - 1) != neg, Carry(a, b, neg, c, j - 1))
  }

  lemma {:induction false} CarryFromFirst(a: nat, b: nat, neg: bool, c: bool, j: nat)
    requires j > 0
    ensures Carry(a, b, neg, c, j) == Carry(a / 2, b / 2, neg, Majority(Bit(a, 0), Bit(b, 0) != neg, c), j - 1)
    decreases j
  {
    if j > 1 { CarryFromFirst(a, b, neg, c, j - 1); }
  }

  /** A sum, column by column. */
  lemma {:induction false} SumBits(a: nat, b: nat, c: bool, j: nat)
    ensures Bit(a + b + AsBit(c), j) == (Bit(a, j) != (Bit(b, j) != Carry(a, b, false, c, j)))
    decreases j
  {
    if j > 0 {
      var d := Majority(Bit(a, 0), Bit(b, 0), c);
      assert (a + b + AsBit(c)) / 2 == a / 2 + b / 2 + AsBit(d);
      CarryFromFirst(a, b, false, c, j);
      hide Carry;
      SumBits(a / 2, b / 2, d, j - 1);
    }
  }

  /** All bits inverted. */
  lemma {:induction false} NotBits(b: nat, n: nat, j: nat)
    requires b < Pow2(n) && j < n
    ensures Bit(Pow2(n) - 1 - b, j) == !Bit(b, j)
    decreases n
  {
    var p := Pow2(n - 1);
    assert (2 * p - 1 - b) / 2 == p - 1 - b / 2;
    if j > 0 { NotBits(b / 2, n - 1, j - 1); }
  }

  lemma {:induction false} CarryOfNot(a: nat, b: nat, n: nat, c: bool, j: nat)
    requires b < Pow2(n) && j <= n
    ensures Carry(a, Pow2(n) - 1 - b, false, c, j) == Carry(a, b, true, c, j)
    decreases j
  {
    if j > 0 {
      NotBits(b, n, j - 1);
      CarryOfNot(a, b, n, c, j - 1);
    }
  }

  // ----- products and shifts -----

  /** The sum of a, shifted by j, for the bits j below n of b. */
  function Product(a: nat, b: nat, n: nat): nat {
    if n == 0 then 0 else (if Bit(b, n - 1) then a * Pow2(n - 1) else 0) + Product(a, b, n - 1)
  }

  lemma {:induction false} ProductFromFirst(a: nat, b: nat, n: nat)
    requires n > 0
    ensures Product(a, b, n) == a * (b % 2) + 2 * Product(a, b / 2, n - 1)
    decreases n
  {
    if n > 1 {
      ProductFromFirst(a, b, n - 1);
      assert a * Pow2(n - 1) == 2 * (a * Pow2(n - 2)) by { Doubled(a, Pow2(n - 2)); }
    }
  }

  lemma Doubled(a: nat, p: nat)
    ensures a * (2 * p) == 2 * (a * p)
  {
  }

  lemma {:induction false} ProductIs(a: nat, b: nat, n: nat)
    requires b < Pow2(n)
    ensures Product(a, b, n) == a * b
    decreases n
  {
    if n > 0 {
      ProductFromFirst(a, b, n);
      ProductIs(a, b / 2, n - 1);
      Distribute(a, b / 2, b % 2);
    }
  }

  lemma Distribute(a: nat, h: nat, l: nat)
    ensures a * (2 * h + l) == 2 * (a * h) + a * l
  {
  }

  lemma {:induction false} ShiftedUp(x: nat, n: nat, j: nat)
    ensures Bit(x * Pow2(n), j) == (j >= n && Bit(x, j - n))
    decreases n
  {
    if n > 0 {
      Doubled(x, Pow2(n - 1));
      var y := x * Pow2(n - 1);
      assert (2 * y) / 2 == y && (2 * y) % 2 == 0;
      if j > 0 { ShiftedUp(x, n - 1, j - 1); }
    }
  }

  /** x halved n times. */
  function Halved(x: nat, n: nat): nat { if n == 0 then x else Halved(x / 2, n - 1) }

  lemma {:induction false} HalvedIs(x: nat, n: nat)
    ensures Halved(x, n) == x / Pow2(n)
    decreases n
  {
    if n > 0 {
      HalvedIs(x / 2, n - 1);
      DivTwice(x, Pow2(n - 1));
    }
  }

  lemma {:induction false} ShiftedDown(x: nat, n: nat, j: nat)
    ensures Bit(Halved(x, n), j) == Bit(x, j + n)
    decreases n
  {
    if n > 0 { ShiftedDown(x / 2, n - 1, j); }
  }

  lemma DivTwice(x: nat, p: nat)
    requires p > 0
    ensures x / (2 * p) == (x / 2) / p
  {
    var q, r := x / (2 * p), x % (2 * p);
    assert x == (2 * p) * q + r && (2 * p) * q == 2 * (p * q);
    assert x / 2 == p * q + r / 2 && r / 2 < p;
    ModOf(p, q, r / 2);
  }
}
