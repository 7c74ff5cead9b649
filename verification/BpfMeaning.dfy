/** What each class of instructions does, told from the fields of the instruction:
    arithmetic by the bits of its operands, loads by the bytes of the input. */
module BpfMeaning {
  import opened Words
  import opened Bits
  import opened Bpf

  // ----- arithmetic on words -----

  ghost predicate IsSum(a: u32, b: u32, r: u32) {
    forall j: nat :: j < 32 ==> Bit(r, j) == (Bit(a, j) != (Bit(b, j) != Carry(a, b, false, false, j)))
  }

  /** The sum of a, the inverted bits of b, and one. */
  ghost predicate IsDifference(a: u32, b: u32, r: u32) {
    forall j: nat :: j < 32 ==> Bit(r, j) == (Bit(a, j) != (!Bit(b, j) != Carry(a, b, true, true, j)))
  }

  ghost predicate IsProduct(a: u32, b: u32, r: u32) { r == Product(a, b, 32) % TWO_32 }

  predicate IsQuotient(a: u32, b: u32, q: nat) { b * q <= a < b * (q + 1) }

  ghost predicate IsRemainder(a: u32, b: u32, r: u32) {
    r < b && forall q: nat :: IsQuotient(a, b, q) ==> a == b * q + r
  }

  ghost predicate IsOr(a: u32, b: u32, r: u32) { forall j: nat :: j < 32 ==> Bit(r, j) == (Bit(a, j) || Bit(b, j)) }

  ghost predicate IsAnd(a: u32, b: u32, r: u32) { forall j: nat :: j < 32 ==> Bit(r, j) == (Bit(a, j) && Bit(b, j)) }

  ghost predicate IsXor(a: u32, b: u32, r: u32) { forall j: nat :: j < 32 ==> Bit(r, j) == (Bit(a, j) != Bit(b, j)) }

  ghost predicate IsLeftShift(a: u32, n: u32, r: u32) {
    forall j: nat :: j < 32 ==> Bit(r, j) == (j >= n && Bit(a, j - n))
  }

  ghost predicate IsRightShift(a: u32, n: u32, r: u32) { forall j: nat :: j < 32 ==> Bit(r, j) == Bit(a, j + n) }

  lemma SumIs(a: u32, b: u32)
    ensures IsSum(a, b, Wrap32(a + b))
  {
    Pow2Values();
    hide Pow2, Carry;
    forall j: nat | j < 32
      ensures Bit(Wrap32(a + b), j) == (Bit(a, j) != (Bit(b, j) != Carry(a, b, false, false, j)))
    {
      LowBits(a + b, 32, j);
      SumBits(a, b, false, j);
    }
  }

  lemma DifferenceIs(a: u32, b: u32)
    ensures IsDifference(a, b, Wrap32(a - b))
  {
    Pow2Values();
    hide Pow2, Carry;
    var n := TWO_32 - 1 - b;
    assert Wrap32(a - b) == Wrap32(a + n + AsBit(true)) by { assert a + n + 1 == a - b + TWO_32; }
    forall j: nat | j < 32
      ensures Bit(Wrap32(a - b), j) == (Bit(a, j) != (!Bit(b, j) != Carry(a, b, true, true, j)))
    {
      LowBits(a + n + AsBit(true), 32, j);
      SumBits(a, n, true, j);
      NotBits(b, 32, j);
      CarryOfNot(a, b, 32, true, j);
    }
  }

  lemma ProductIsWrapped(a: u32, b: u32)
    ensures IsProduct(a, b, Wrap32(a * b))
  {
    Pow2Values();
    hide Pow2, Product;
    ProductIs(a, b, 32);
  }

  lemma QuotientIs(a: u32, b: u32)
    requires b > 0
    ensures 0 <= a / b && IsQuotient(a, b, a / b)
  {
    DivBound(a, b);
    assert a == b * (a / b) + a % b && b * (a / b + 1) == b * (a / b) + b;
  }

  lemma RemainderIs(a: u32, b: u32)
    requires b > 0
    ensures IsRemainder(a, b, a % b)
  {
    DivBound(a, b);
    forall q: nat | IsQuotient(a, b, q) ensures a == b * q + a % b {
      assert b * (q + 1) == b * q + b;
      SameQuotient(b, q, a - b * q, a / b, a % b);
    }
  }

  lemma BitwiseAre(a: u32, b: u32)
    ensures IsOr(a, b, Or32(a, b)) && IsAnd(a, b, And32(a, b)) && IsXor(a, b, Xor32(a, b))
  {
    hide Bit, And, Or, Xor;
    forall j: nat | j < 32
      ensures Bit(Or32(a, b), j) == (Bit(a, j) || Bit(b, j)) && Bit(And32(a, b), j) == (Bit(a, j) && Bit(b, j))
      ensures Bit(Xor32(a, b), j) == (Bit(a, j) != Bit(b, j))
    {
      OrBits(a, b, j);
      AndBits(a, b, j);
      XorBits(a, b, j);
    }
  }

  lemma LeftShiftIs(a: u32, n: u32)
    ensures IsLeftShift(a, n, Lsh32(a, n))
  {
    Pow2Values();
    hide Pow2;
    forall j: nat | j < 32 ensures Bit(Lsh32(a, n), j) == (j >= n && Bit(a, j - n)) {
      if n >= 32 {
        HighBits(0, 0, j);
      } else {
        ShiftedUp(a, n, j);
        LowBits(a * Pow2(n), 32, j);
      }
    }
  }

  lemma RightShiftIs(a: u32, n: u32)
    ensures IsRightShift(a, n, Rsh32(a, n))
  {
    Pow2Values();
    hide Pow2;
    forall j: nat | j < 32 ensures Bit(Rsh32(a, n), j) == Bit(a, j + n) {
      if n >= 32 {
        HighBits(0, 0, j);
        HighBits(a, 32, j + n);
      } else {
        HalvedIs(a, n);
        ShiftedDown(a, n, j);
      }
    }
  }

  // ----- arithmetic instructions -----

  predicate IsAlu(i: Insn) { i.op & INSTRUCTION_CLASS_MASK == ALU && i.op & UNUSED_BITS_MASK == 0 }

  function Operand(i: Insn, m: Machine): u32 { if i.op & SRC_ALU_JMP_MASK == SRC_X then m.x else i.k }

  /** The codes that have an instruction. Negation has no operand. */
  predicate AluCode(code: bv16, src: bv16) {
    || code == ADD || code == SUB || code == MUL || code == DIV || code == OR_OP || code == AND_OP || code == LSH
    || code == RSH || code == MOD || code == XOR_OP || (code == NEG && src == SRC_K)
  }

  ghost predicate AluMeans(code: bv16, a: u32, b: u32, r: u32) {
    if code == ADD then IsSum(a, b, r)
    else if code == SUB then IsDifference(a, b, r)
    else if code == MUL then IsProduct(a, b, r)
    else if code == DIV then IsQuotient(a, b, r)
    else if code == MOD then IsRemainder(a, b, r)
    else if code == OR_OP then IsOr(a, b, r)
    else if code == AND_OP then IsAnd(a, b, r)
    else if code == XOR_OP then IsXor(a, b, r)
    else if code == LSH then IsLeftShift(a, b, r)
    else if code == RSH then IsRightShift(a, b, r)
    else IsDifference(0, a, r)
  }

  /** An arithmetic instruction replaces A by the result of its operation on A and its
      operand, and changes nothing else. Division by zero fails; Compile has to
      exclude a zero in the instruction. */
  lemma AluDoes(i: Insn, input: Input, m: Machine, pc: nat)
    requires IsAlu(i)
    ensures var code, src, b, o := i.op & ALU_MASK, i.op & SRC_ALU_JMP_MASK, Operand(i, m), Step(i, input, m, pc);
            if !AluCode(code, src) then o == Stop(Failure(InvalidOpcode, pc))
            else if (code == DIV || code == MOD) && b == 0 then
              o == Stop(if src == SRC_X then Failure(DivisionByZero, pc) else Panic)
            else o.Next? && o.off == 0 && o.m == m.(a := o.m.a) && AluMeans(code, m.a, b, o.m.a)
  {
    hide AluMeans;
    var code, src, b := i.op & ALU_MASK, i.op & SRC_ALU_JMP_MASK, Operand(i, m);
    assert i.op == ALU | code | src && (src == SRC_K || src == SRC_X) && Step(i, input, m, pc) == StepAlu(i, m, pc);
    if AluCode(code, src) && !((code == DIV || code == MOD) && b == 0) {
      AluResultMeans(code, m.a, b);
      if src == SRC_K { StepAluK(i, code, m, pc); } else { StepAluX(i, code, m, pc); }
    } else {
      NoAluResult(i, code, src, m, pc);
    }
  }

  /** The result by code. */
  function AluResult(code: bv16, a: u32, b: u32): u32
    requires (code == DIV || code == MOD) ==> b > 0
  {
    if code == ADD then Wrap32(a + b)
    else if code == SUB then Wrap32(a - b)
    else if code == MUL then Wrap32(a * b)
    else if code == DIV then (DivBound(a, b); a / b)
    else if code == MOD then a % b
    else if code == OR_OP then Or32(a, b)
    else if code == AND_OP then And32(a, b)
    else if code == XOR_OP then Xor32(a, b)
    else if code == LSH then Lsh32(a, b)
    else if code == RSH then Rsh32(a, b)
    else Wrap32(0 - a)
  }

  lemma AluResultMeans(code: bv16, a: u32, b: u32)
    requires (code == DIV || code == MOD) ==> b > 0
    ensures AluMeans(code, a, b, AluResult(code, a, b))
  {
    hide IsSum, IsDifference, IsProduct, IsQuotient, IsRemainder, IsOr, IsAnd, IsXor, IsLeftShift, IsRightShift;
    hide Wrap32, Or32, And32, Xor32, Lsh32, Rsh32;
    SumIs(a, b);
    DifferenceIs(a, b);
    DifferenceIs(0, a);
    ProductIsWrapped(a, b);
    if code == DIV || code == MOD {
      QuotientIs(a, b);
      RemainderIs(a, b);
    }
    BitwiseAre(a, b);
    LeftShiftIs(a, b);
    RightShiftIs(a, b);
  }

  lemma StepAluK(i: Insn, code: bv16, m: Machine, pc: nat)
    requires i.op == ALU | code | SRC_K && AluCode(code, SRC_K) && ((code == DIV || code == MOD) ==> i.k > 0)
    ensures StepAlu(i, m, pc) == SetA(m, AluResult(code, m.a, i.k))
  {
    hide Wrap32, Or32, And32, Xor32, Lsh32, Rsh32;
  }

  lemma StepAluX(i: Insn, code: bv16, m: Machine, pc: nat)
    requires i.op == ALU | code | SRC_X && AluCode(code, SRC_X) && ((code == DIV || code == MOD) ==> m.x > 0)
    ensures StepAlu(i, m, pc) == SetA(m, AluResult(code, m.a, m.x))
  {
    hide Wrap32, Or32, And32, Xor32, Lsh32, Rsh32;
  }

  lemma NoAluResult(i: Insn, code: bv16, src: bv16, m: Machine, pc: nat)
    requires i.op == ALU | code | src && (src == SRC_K || src == SRC_X) && code == i.op & ALU_MASK
    requires src == i.op & SRC_ALU_JMP_MASK
    requires !AluCode(code, src) || ((code == DIV || code == MOD) && Operand(i, m) == 0)
    ensures StepAlu(i, m, pc) == if !AluCode(code, src) then Stop(Failure(InvalidOpcode, pc))
                                 else if src == SRC_X then Stop(Failure(DivisionByZero, pc)) else Stop(Panic)
  {
    hide Wrap32, Or32, And32, Xor32, Lsh32, Rsh32;
  }

  /** The meaning leaves no choice. */
  lemma AluIsDetermined(code: bv16, a: u32, b: u32, r: u32, r2: u32)
    requires AluMeans(code, a, b, r) && AluMeans(code, a, b, r2)
    ensures r == r2
  {
    Pow2Values();
    hide Pow2, Carry, Product;
    if code == MUL {
    } else if code == DIV {
      SameQuotient(b, r, a - b * r, r2, a - b * r2);
    } else if code == MOD {
      QuotientIs(a, b);
    } else {
      forall j | 0 <= j < 32 ensures Bit(r, j) == Bit(r2, j) {}
      BitsDetermine(r, r2, 32);
    }
  }

  // ----- loads -----

  function ByteOf(v: nat, j: nat): nat { if j == 0 then v % TWO_8 else ByteOf(v / TWO_8, j - 1) }

  /** The n bytes from off on are those of v, and v has no others. */
  ghost predicate LaidOut(input: Input, off: u32, n: nat, v: u32) {
    && off + n <= |input.data|
    && (forall j: nat :: j < n ==> input.data[Place(input, off, n, j)] == ByteOf(v, j))
    && (forall j: nat :: n <= j < 4 ==> ByteOf(v, j) == 0)
  }

  /** Where byte j of the n bytes from off on is. */
  function Place(input: Input, off: u32, n: nat, j: nat): int {
    if input.order.LittleEndian? then off + j else off + n - 1 - j
  }

  lemma BytesOfWord(v: u32, b0: u8, b1: u8, b2: u8, b3: u8)
    requires v == b0 + TWO_8 * (b1 + TWO_8 * (b2 + TWO_8 * b3))
    ensures ByteOf(v, 0) == b0 && ByteOf(v, 1) == b1 && ByteOf(v, 2) == b2 && ByteOf(v, 3) == b3
  {
    assert v / TWO_8 == b1 + TWO_8 * (b2 + TWO_8 * b3) && v % TWO_8 == b0;
    assert v / TWO_8 / TWO_8 == b2 + TWO_8 * b3 && v / TWO_8 % TWO_8 == b1;
    assert v / TWO_8 / TWO_8 / TWO_8 == b3 && v / TWO_8 / TWO_8 % TWO_8 == b2;
    var v1, v2, v3 := v / TWO_8, v / TWO_8 / TWO_8, v / TWO_8 / TWO_8 / TWO_8;
    assert ByteOf(v, 2) == ByteOf(v1, 1) == ByteOf(v2, 0);
    assert ByteOf(v, 3) == ByteOf(v1, 2) == ByteOf(v2, 1) == ByteOf(v3, 0);
  }

  lemma Load32Is(input: Input, off: u32)
    ensures if off + 4 <= |input.data| then input.Load32(off).Some? && LaidOut(input, off, 4, input.Load32(off).value)
            else input.Load32(off).None?
  {
    hide ByteOf;
    if off + 4 <= |input.data| {
      var d, v := input.data, input.Load32(off).value;
      if input.order.LittleEndian? {
        BytesOfWord(v, d[off], d[off + 1], d[off + 2], d[off + 3]);
      } else {
        BytesOfWord(v, d[off + 3], d[off + 2], d[off + 1], d[off]);
      }
    }
  }

  lemma Load16Is(input: Input, off: u32)
    ensures if off + 2 <= |input.data| then input.Load16(off).Some? && LaidOut(input, off, 2, input.Load16(off).value)
            else input.Load16(off).None?
  {
    hide ByteOf;
    if off + 2 <= |input.data| {
      var d, v := input.data, input.Load16(off).value;
      if input.order.LittleEndian? {
        BytesOfWord(v, d[off], d[off + 1], 0, 0);
      } else {
        BytesOfWord(v, d[off + 1], d[off], 0, 0);
      }
    }
  }

  lemma Load8Is(input: Input, off: u32)
    ensures if off + 1 <= |input.data| then input.Load8(off).Some? && LaidOut(input, off, 1, input.Load8(off).value)
            else input.Load8(off).None?
  {
    hide ByteOf;
    if off + 1 <= |input.data| { BytesOfWord(input.data[off], input.data[off], 0, 0, 0); }
  }

  /** A word that is laid out in the input is what a load of it gives. */
  lemma LoadGivesBack(input: Input, off: u32, v: u32)
    requires LaidOut(input, off, 4, v)
    ensures input.Load32(off) == Some(v)
  {
    Load32Is(input, off);
    SameBytes(input, off, v, input.Load32(off).value);
  }

  lemma SameBytes(input: Input, off: u32, v: u32, w: u32)
    requires LaidOut(input, off, 4, v) && LaidOut(input, off, 4, w)
    ensures v == w
  {
    forall j: nat | j < 4 ensures ByteOf(v, j) == ByteOf(w, j) {
      assert input.data[Place(input, off, 4, j)] == ByteOf(v, j);
    }
    FromBytes(v);
    FromBytes(w);
  }

  lemma FromBytes(v: u32)
    ensures v == ByteOf(v, 0) + TWO_8 * (ByteOf(v, 1) + TWO_8 * (ByteOf(v, 2) + TWO_8 * ByteOf(v, 3)))
  {
    var v1, v2, v3 := v / TWO_8, v / TWO_8 / TWO_8, v / TWO_8 / TWO_8 / TWO_8;
    assert ByteOf(v1, 0) == ByteOf(v, 1) && ByteOf(v2, 0) == ByteOf(v1, 1) == ByteOf(v, 2);
    assert ByteOf(v3, 0) == ByteOf(v2, 1) == ByteOf(v1, 2) == ByteOf(v, 3) && v3 < TWO_8;
  }

  predicate IsLoad(i: Insn) {
    (i.op & INSTRUCTION_CLASS_MASK == LD || i.op & INSTRUCTION_CLASS_MASK == LDX) && i.op & UNUSED_BITS_MASK == 0
  }

  /** The register that a load sets. */
  function Into(i: Insn, m: Machine, v: u32): Machine {
    if i.op & INSTRUCTION_CLASS_MASK == LDX then m.(x := v) else m.(a := v)
  }

  /** A load from the input, of n bytes at off. */
  ghost predicate LoadsInput(i: Insn, input: Input, m: Machine, pc: nat, off: u32, n: nat, o: Outcome) {
    if off + n <= |input.data| then o.Next? && o.off == 0 && o.m == m.(a := o.m.a) && LaidOut(input, off, n, o.m.a)
    else o == Stop(Failure(InvalidLoad, pc))
  }

  /** Four times the low half of a byte, which is the length of an IPv4 header. */
  ghost predicate LoadsHeaderLength(i: Insn, input: Input, m: Machine, pc: nat, o: Outcome) {
    if i.k < |input.data| then
      && o.Next? && o.off == 0 && o.m == m.(x := o.m.x)
      && o.m.x < 64 && o.m.x % 4 == 0 && (input.data[i.k] - o.m.x / 4) % 16 == 0
    else o == Stop(Failure(InvalidLoad, pc))
  }

  function SizeOf(size: bv16): nat { if size == W then 4 else if size == H then 2 else 1 }

  ghost predicate LoadMeans(i: Insn, input: Input, m: Machine, pc: nat, o: Outcome) {
    var x, mode, size := i.op & INSTRUCTION_CLASS_MASK == LDX, i.op & LOAD_MODE_MASK, i.op & LOAD_SIZE_MASK;
    if size == W && mode == IMM then o == Next(Into(i, m, i.k), 0)
    else if size == W && mode == LEN then o == Next(Into(i, m, |input.data| % TWO_32), 0)
    else if size == W && mode == MEM then
      o == if i.k < SCRATCH_MEM_REGISTERS then Next(Into(i, m, m.mem[i.k]), 0) else Stop(Panic)
    else if !x && mode == ABS && (size == W || size == H || size == B) then
      LoadsInput(i, input, m, pc, i.k, SizeOf(size), o)
    else if !x && mode == IND && (size == W || size == H || size == B) then
      LoadsInput(i, input, m, pc, (m.x + i.k) % TWO_32, SizeOf(size), o)
    else if x && mode == MSH && size == B then LoadsHeaderLength(i, input, m, pc, o)
    else o == Stop(Failure(InvalidOpcode, pc))
  }

  /** A load sets A or X to the number in the instruction, the length of the input, a
      cell of the memory, or the number laid out in the input, in its byte order. */
  lemma LoadDoes(i: Insn, input: Input, m: Machine, pc: nat)
    requires IsLoad(i)
    ensures LoadMeans(i, input, m, pc, Step(i, input, m, pc))
  {
    hide LaidOut, LoadsHeaderLength;
    var mode, size, off := i.op & LOAD_MODE_MASK, i.op & LOAD_SIZE_MASK, (m.x + i.k) % TWO_32;
    assert Step(i, input, m, pc) == StepLoad(i, input, m, pc);
    if i.op & INSTRUCTION_CLASS_MASK == LD {
      assert i.op == LD | mode | size;
      Load32Is(input, i.k);
      Load16Is(input, i.k);
      Load8Is(input, i.k);
      Load32Is(input, off);
      Load16Is(input, off);
      Load8Is(input, off);
      ALoads(i, input, m, pc, mode, size);
    } else {
      assert i.op == LDX | mode | size;
      XLoads(i, input, m, pc, mode, size);
    }
  }

  lemma ALoads(i: Insn, input: Input, m: Machine, pc: nat, mode: bv16, size: bv16)
    requires i.op == LD | mode | size && mode == i.op & LOAD_MODE_MASK && size == i.op & LOAD_SIZE_MASK
    requires Read(input, i.k) && Read(input, (m.x + i.k) % TWO_32)
    ensures LoadMeans(i, input, m, pc, StepLoad(i, input, m, pc))
  {
    hide LaidOut, LoadsHeaderLength;
  }

  /** What loads of the three sizes give. */
  ghost predicate Read(input: Input, off: u32) {
    && (if off + 4 <= |input.data| then input.Load32(off).Some? && LaidOut(input, off, 4, input.Load32(off).value)
        else input.Load32(off).None?)
    && (if off + 2 <= |input.data| then input.Load16(off).Some? && LaidOut(input, off, 2, input.Load16(off).value)
        else input.Load16(off).None?)
    && (if off + 1 <= |input.data| then input.Load8(off).Some? && LaidOut(input, off, 1, input.Load8(off).value)
        else input.Load8(off).None?)
  }

  lemma XLoads(i: Insn, input: Input, m: Machine, pc: nat, mode: bv16, size: bv16)
    requires i.op == LDX | mode | size && mode == i.op & LOAD_MODE_MASK && size == i.op & LOAD_SIZE_MASK
    ensures LoadMeans(i, input, m, pc, StepLoad(i, input, m, pc))
  {
    hide LaidOut;
  }

  // ----- stores, jumps, returns and moves -----

  /** Cell k is v, and nothing else has changed. */
  ghost predicate Stores(m: Machine, k: nat, v: u32, m2: Machine) {
    && m2.a == m.a && m2.x == m.x
    && forall j :: 0 <= j < SCRATCH_MEM_REGISTERS ==> m2.mem[j] == if j == k then v else m.mem[j]
  }

  ghost predicate Test(code: bv16, a: u32, b: u32) {
    if code == JEQ then a == b
    else if code == JGT then b < a
    else if code == JGE then b <= a
    else CommonBit(a, b)
  }

  ghost predicate CommonBit(a: u32, b: u32) { exists j: nat :: j < 32 && Bit(a, j) && Bit(b, j) }

  predicate Tests(code: bv16) { code == JEQ || code == JGT || code == JGE || code == JSET }

  ghost predicate OtherMeans(i: Insn, m: Machine, pc: nat, o: Outcome) {
    var cls, code, src := i.op & INSTRUCTION_CLASS_MASK, i.op & JMP_MASK, i.op & SRC_ALU_JMP_MASK;
    if i.op == ST || i.op == STX then
      if i.k < SCRATCH_MEM_REGISTERS then
        o.Next? && o.off == 0 && Stores(m, i.k, if i.op == STX then m.x else m.a, o.m)
      else o == Stop(Panic)
    else if cls == JMP && code == JA && src == SRC_K then o == Next(m, i.k)
    else if cls == JMP && Tests(code) then o == Next(m, if Test(code, m.a, Operand(i, m)) then i.jt else i.jf)
    else if cls == RET && i.op & RET_UNUSED_BITS_MASK == 0 && i.op & SRC_RET_MASK == SRC_K then o == Stop(Return(i.k))
    else if cls == RET && i.op & RET_UNUSED_BITS_MASK == 0 && i.op & SRC_RET_MASK == SRC_A then o == Stop(Return(m.a))
    else if cls == MISC && i.op & MISC_MASK == TAX then o == Next(m.(a := m.x), 0)
    else if cls == MISC && i.op & MISC_MASK == TXA then o == Next(m.(x := m.a), 0)
    else o == Stop(Failure(InvalidOpcode, pc))
  }

  predicate IsOther(i: Insn) {
    var cls := i.op & INSTRUCTION_CLASS_MASK;
    cls != LD && cls != LDX && cls != ALU && i.op & UNUSED_BITS_MASK == 0
  }

  lemma AndNonZero(a: u32, b: u32)
    ensures And32(a, b) != 0 <==> CommonBit(a, b)
  {
    Pow2Values();
    BitwiseAre(a, b);
    hide Pow2;
    var r := And32(a, b);
    forall j: nat | j < 32 ensures !Bit(0, j) { HighBits(0, 0, j); }
    if CommonBit(a, b) {
      var j: nat :| j < 32 && Bit(a, j) && Bit(b, j);
      assert Bit(r, j) && !Bit(0, j);
    } else {
      forall j: nat | j < 32 ensures Bit(r, j) == Bit(0, j) {}
      BitsDetermine(r, 0, 32);
    }
  }

  /** Stores, jumps, returns and moves. */
  lemma OtherDoes(i: Insn, input: Input, m: Machine, pc: nat)
    requires IsOther(i)
    ensures OtherMeans(i, m, pc, Step(i, input, m, pc))
  {
    hide And32, CommonBit;
    AndNonZero(m.a, i.k);
    AndNonZero(m.a, m.x);
    var cls := i.op & INSTRUCTION_CLASS_MASK;
    assert Step(i, input, m, pc) == StepOther(i, m, pc);
    if cls == JMP {
      var code, src := i.op & JMP_MASK, i.op & SRC_ALU_JMP_MASK;
      assert i.op == JMP | code | src && (src == SRC_K || src == SRC_X);
      JumpDoes(i, m, pc, code, src);
    }
  }

  lemma JumpDoes(i: Insn, m: Machine, pc: nat, code: bv16, src: bv16)
    requires i.op == JMP | code | src && (src == SRC_K || src == SRC_X)
    requires code == i.op & JMP_MASK && src == i.op & SRC_ALU_JMP_MASK && i.op & INSTRUCTION_CLASS_MASK == JMP
    requires (And32(m.a, i.k) != 0 <==> CommonBit(m.a, i.k)) && (And32(m.a, m.x) != 0 <==> CommonBit(m.a, m.x))
    ensures OtherMeans(i, m, pc, StepOther(i, m, pc))
  {
    hide And32, CommonBit;
  }

  /** What is stored in a cell is what a load of it gives, and only that cell
      changes. */
  lemma StoreThenLoad(k: u32, input: Input, m: Machine, pc: nat, j: u32)
    requires k < SCRATCH_MEM_REGISTERS && j < SCRATCH_MEM_REGISTERS
    ensures var o := Step(Stmt(ST, k), input, m, pc);
            o.Next? && var p := Step(Stmt(LD | MEM | W, j), input, o.m, pc + 1);
            p.Next? && p.m.a == if j == k then m.a else m.mem[j]
  {
    hide LoadsInput, LoadsHeaderLength;
    var o := Step(Stmt(ST, k), input, m, pc);
    OtherDoes(Stmt(ST, k), input, m, pc);
    LoadDoes(Stmt(LD | MEM | W, j), input, o.m, pc + 1);
  }

  // ----- the validator -----

  /** A jump of an n-line program that leaves it, on one side at least. */
  predicate JumpsOut(i: Insn, pc: nat, n: nat) {
    && i.op & INSTRUCTION_CLASS_MASK == JMP
    && if i.op & JMP_MASK == JA then pc + i.k + 1 >= n else pc + i.jt + 1 >= n || pc + i.jf + 1 >= n
  }

  /** An opcode is found invalid exactly if the interpreter does not know it, a register
      or a division exactly if the interpreter would panic, and a jump exactly if it
      leaves the program. */
  ghost predicate Exact(i: Insn, pc: nat, n: nat, o: Outcome) {
    var c := CheckInsn(i, pc, n);
    && (c == Some(InvalidOpcode) <==> o == Stop(Failure(InvalidOpcode, pc)))
    && (c == Some(InvalidRegister) || c == Some(DivisionByZero) <==> o == Stop(Panic))
    && (c == Some(InvalidJumpTarget) <==> o.Next? && JumpsOut(i, pc, n))
    && (c.Some? ==> c.value == InvalidOpcode || c.value == InvalidRegister || c.value == DivisionByZero
                    || c.value == InvalidJumpTarget)
  }

  /** The validator is exact, on every input and in every state of the machine. */
  lemma CheckIsExact(i: Insn, pc: nat, n: nat, input: Input, m: Machine)
    ensures Exact(i, pc, n, Step(i, input, m, pc))
  {
    hide Wrap32, Or32, And32, Xor32, Lsh32, Rsh32;
    var cls := i.op & INSTRUCTION_CLASS_MASK;
    if i.op & UNUSED_BITS_MASK != 0 {
      UnknownOpcode(i, input, m, pc);
    } else if cls == LD || cls == LDX {
      LoadCheck(i, pc, n, input, m);
    } else if cls == ALU {
      AluCheck(i, pc, n, input, m);
    } else {
      OtherCheck(i, pc, n, input, m);
    }
  }

  lemma UnknownOpcode(i: Insn, input: Input, m: Machine, pc: nat)
    requires i.op & UNUSED_BITS_MASK != 0
    ensures Step(i, input, m, pc) == Stop(Failure(InvalidOpcode, pc))
  {
    hide Wrap32, Or32, And32, Xor32, Lsh32, Rsh32;
  }

  lemma LoadCheck(i: Insn, pc: nat, n: nat, input: Input, m: Machine)
    requires IsLoad(i)
    ensures Exact(i, pc, n, Step(i, input, m, pc))
  {
    hide LaidOut, Step;
    LoadDoes(i, input, m, pc);
  }

  lemma AluCheck(i: Insn, pc: nat, n: nat, input: Input, m: Machine)
    requires IsAlu(i)
    ensures Exact(i, pc, n, Step(i, input, m, pc))
  {
    hide AluMeans, Step;
    AluDoes(i, input, m, pc);
  }

  lemma OtherCheck(i: Insn, pc: nat, n: nat, input: Input, m: Machine)
    requires IsOther(i)
    ensures Exact(i, pc, n, Step(i, input, m, pc))
  {
    hide Test, Step;
    OtherDoes(i, input, m, pc);
  }
}
