/** Machine words as bounded integers, with the bitwise operators the BPF
    machine needs, defined bit by bit. */
module Words {
  datatype Option<+T> = None | Some(value: T)

  const TWO_8: int := 0x100
  const TWO_31: int := 0x8000_0000
  const TWO_32: int := 0x1_0000_0000
  const TWO_63: int := 0x8000_0000_0000_0000
  const TWO_64: int := 0x1_0000_0000_0000_0000

  type u8 = x: int | 0 <= x < TWO_8
  type u32 = x: int | 0 <= x < TWO_32
  type u64 = x: int | 0 <= x < TWO_64

  function Pow2(n: nat): (r: nat)
    ensures r >= 1
  {
    if n == 0 then 1 else 2 * Pow2(n - 1)
  }

  /** A bitwise operator given by its effect on one pair of bits; f(0, 0) must
      be 0 for the recursion to stop at the highest set bit. */
  function Bitwise(f: (nat, nat) -> bool, x: nat, y: nat): (r: nat)
    decreases x + y
  {
    if x == 0 && y == 0 then 0
    else (if f(x % 2, y % 2) then 1 else 0) + 2 * Bitwise(f, x / 2, y / 2)
  }

  const AND_BIT: (nat, nat) -> bool := (a, b) => a == 1 && b == 1
  const OR_BIT: (nat, nat) -> bool := (a, b) => a == 1 || b == 1
  const XOR_BIT: (nat, nat) -> bool := (a, b) => a != b

  function And(x: nat, y: nat): nat { Bitwise(AND_BIT, x, y) }
  function Or(x: nat, y: nat): nat { Bitwise(OR_BIT, x, y) }
  function Xor(x: nat, y: nat): nat { Bitwise(XOR_BIT, x, y) }

  /** A bitwise operator never sets a bit above its operands' highest bit. */
  lemma {:induction false} BitwiseBound(f: (nat, nat) -> bool, x: nat, y: nat, n: nat)
    requires x < Pow2(n) && y < Pow2(n)
    ensures Bitwise(f, x, y) < Pow2(n)
    decreases n
  {
    if n > 0 && (x > 0 || y > 0) {
      BitwiseBound(f, x / 2, y / 2, n - 1);
    }
  }

  /** x * 2^n by repeated doubling, which keeps the proofs about it linear. */
  function Shift(x: nat, n: nat): (r: nat)
    ensures r >= x
  {
    if n == 0 then x else 2 * Shift(x, n - 1)
  }

  lemma ShiftHalf(xh: nat, xl: nat, n: nat)
    requires n > 0
    ensures (Shift(xh, n) + xl) / 2 == Shift(xh, n - 1) + xl / 2 && (Shift(xh, n) + xl) % 2 == xl % 2
  {
  }

  /** A bitwise operator acts on the high and low parts of a word separately. */
  lemma {:induction false} BitwiseSplit(f: (nat, nat) -> bool, xh: nat, xl: nat, yh: nat, yl: nat, n: nat)
    requires xl < Pow2(n) && yl < Pow2(n)
    requires !f(0, 0)
    ensures Bitwise(f, Shift(xh, n) + xl, Shift(yh, n) + yl) == Shift(Bitwise(f, xh, yh), n) + Bitwise(f, xl, yl)
    decreases n
  {
    hide Bitwise;
    if n == 0 {
      BitwiseZero(f);
    } else {
      BitwiseSplit(f, xh, xl / 2, yh, yl / 2, n - 1);
      var x, y := Shift(xh, n) + xl, Shift(yh, n) + yl;
      ShiftHalf(xh, xl, n);
      ShiftHalf(yh, yl, n);
      BitwiseStep(f, x, y);
      BitwiseStep(f, xl, yl);
    }
  }

  lemma BitwiseZero(f: (nat, nat) -> bool)
    ensures Bitwise(f, 0, 0) == 0
  {
  }

  lemma BitwiseStep(f: (nat, nat) -> bool, x: nat, y: nat)
    requires !f(0, 0)
    ensures Bitwise(f, x, y) == (if f(x % 2, y % 2) then 1 else 0) + 2 * Bitwise(f, x / 2, y / 2)
  {
  }

  lemma {:induction false} ShiftIsMul(x: nat, n: nat)
    ensures Shift(x, n) == x * Pow2(n)
  {
    if n > 0 {
      ShiftIsMul(x, n - 1);
      assert 2 * (x * Pow2(n - 1)) == x * (2 * Pow2(n - 1));
    }
  }

  lemma ShiftValues(x: nat)
    ensures Shift(x, 31) == x * TWO_31 && Shift(x, 32) == x * TWO_32
  {
    Pow2Values();
    ShiftIsMul(x, 31);
    ShiftIsMul(x, 32);
  }

  lemma Pow2Values()
    ensures Pow2(31) == TWO_31 && Pow2(32) == TWO_32
  {
    assert Pow2(8) == 256;
    assert Pow2(16) == 65536;
    assert Pow2(24) == 0x100_0000;
  }

  /** 32-bit truncation, the effect of Go's uint32 conversion and arithmetic. */
  function Wrap32(x: int): (r: u32) { x % TWO_32 }

  function And32(x: u32, y: u32): (r: u32)
  {
    Pow2Values(); BitwiseBound(AND_BIT, x, y, 32);
    And(x, y)
  }

  function Or32(x: u32, y: u32): (r: u32)
  {
    Pow2Values(); BitwiseBound(OR_BIT, x, y, 32);
    Or(x, y)
  }

  function Xor32(x: u32, y: u32): (r: u32)
  {
    Pow2Values(); BitwiseBound(XOR_BIT, x, y, 32);
    Xor(x, y)
  }

  /** Go shifts a uint32 by any unsigned count; counts of 32 and more give 0. */
  function Lsh32(x: u32, n: u32): (r: u32)
  {
    if n >= 32 then 0 else Wrap32(x * Pow2(n))
  }

  function Rsh32(x: u32, n: u32): (r: u32)
  {
    if n >= 32 then 0 else (assert Pow2(n) >= 1; DivBound(x, Pow2(n)); x / Pow2(n))
  }

  lemma DivBound(x: nat, d: nat)
    requires d >= 1
    ensures 0 <= x / d <= x
  {
  }

  function High(x: u64): (r: u32) { x / TWO_32 }
  function Low(x: u64): (r: u32) { x % TWO_32 }

  lemma AndParts(x: u64, mask: u64)
    ensures And(x, mask) == And32(High(x), High(mask)) * TWO_32 + And32(Low(x), Low(mask))
  {
    hide Bitwise, Shift;
    Pow2Values();
    hide Pow2;
    ShiftValues(High(x));
    ShiftValues(High(mask));
    ShiftValues(And32(High(x), High(mask)));
    assert x == High(x) * TWO_32 + Low(x) && mask == High(mask) * TWO_32 + Low(mask);
    BitwiseSplit(AND_BIT, High(x), Low(x), High(mask), Low(mask), 32);
  }

  /** A 64-bit masked comparison is the conjunction of the two 32-bit ones. */
  lemma MaskedEqualSplits(x: u64, mask: u64, value: u64)
    ensures And(x, mask) == value
       <==> And32(Low(x), Low(mask)) == Low(value) && And32(High(x), High(mask)) == High(value)
  {
    hide And, And32;
    AndParts(x, mask);
    assert value == High(value) * TWO_32 + Low(value);
  }

  /** Testing the top bit with a mask is a comparison with 2^31. */
  lemma TopBit(x: u32)
    ensures And32(x, TWO_31) != 0 <==> x >= TWO_31
  {
    Pow2Values();
    var h, l := x / TWO_31, x % TWO_31;
    ShiftValues(h);
    ShiftValues(1);
    ShiftValues(And(h, 1));
    BitwiseSplit(AND_BIT, h, l, 1, 0, 31);
    AndZero(l);
    assert And(x, TWO_31) == And(h, 1) * TWO_31;
    assert h == 0 || h == 1;
    assert And(0, 1) == 0 && And(1, 1) == 1;
  }

  lemma {:induction false} AndZero(x: nat)
    ensures And(x, 0) == 0
  {
    if x > 0 { AndZero(x / 2); }
  }
}
