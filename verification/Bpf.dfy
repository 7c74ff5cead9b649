/** The classic BPF machine: instruction encoding, the validator and the
    interpreter. */
module Bpf {
  import opened Words

  const MAX_INSTRUCTIONS := 4096
  const SCRATCH_MEM_REGISTERS := 16

  // Instruction class, bits 0-2.
  const LD: bv16 := 0x00
  const LDX: bv16 := 0x01
  const ST: bv16 := 0x02
  const STX: bv16 := 0x03
  const ALU: bv16 := 0x04
  const JMP: bv16 := 0x05
  const RET: bv16 := 0x06
  const MISC: bv16 := 0x07
  const INSTRUCTION_CLASS_MASK: bv16 := 0x07

  // Size of a load, bits 3-4.
  const W: bv16 := 0x00
  const H: bv16 := 0x08
  const B: bv16 := 0x10
  const LOAD_SIZE_MASK: bv16 := 0x18

  // Source operand of a load, bits 5-7.
  const IMM: bv16 := 0x00
  const ABS: bv16 := 0x20
  const IND: bv16 := 0x40
  const MEM: bv16 := 0x60
  const LEN: bv16 := 0x80
  const MSH: bv16 := 0xa0
  const LOAD_MODE_MASK: bv16 := 0xe0

  // Source operands of arithmetic, jump and return instructions.
  const SRC_K: bv16 := 0x00
  const SRC_X: bv16 := 0x08
  const SRC_A: bv16 := 0x10
  const SRC_ALU_JMP_MASK: bv16 := 0x08
  const SRC_RET_MASK: bv16 := 0x18

  // Arithmetic instructions, bits 4-7.
  const ADD: bv16 := 0x00
  const SUB: bv16 := 0x10
  const MUL: bv16 := 0x20
  const DIV: bv16 := 0x30
  const OR_OP: bv16 := 0x40
  const AND_OP: bv16 := 0x50
  const LSH: bv16 := 0x60
  const RSH: bv16 := 0x70
  const NEG: bv16 := 0x80
  const MOD: bv16 := 0x90
  const XOR_OP: bv16 := 0xa0
  const ALU_MASK: bv16 := 0xf0

  // Jump instructions, bits 4-7.
  const JA: bv16 := 0x00
  const JEQ: bv16 := 0x10
  const JGT: bv16 := 0x20
  const JGE: bv16 := 0x30
  const JSET: bv16 := 0x40
  const JMP_MASK: bv16 := 0xf0

  // Miscellaneous instructions, bits 3-7.
  const TAX: bv16 := 0x00
  const TXA: bv16 := 0x80
  const MISC_MASK: bv16 := 0xf8

  // Bits that must be zero.
  const UNUSED_BITS_MASK: bv16 := 0xff00
  const STORE_UNUSED_BITS_MASK: bv16 := 0xf8
  const RET_UNUSED_BITS_MASK: bv16 := 0xe0

  datatype Insn = Insn(op: bv16, jt: u8, jf: u8, k: u32)

  function Stmt(code: bv16, k: u32): Insn { Insn(code, 0, 0, k) }
  function Jump(code: bv16, k: u32, jt: u8, jf: u8): Insn { Insn(code, jt, jf, k) }

  datatype ErrorCode =
    | DivisionByZero
    | InvalidEndOfProgram
    | InvalidInstructionCount
    | InvalidJumpTarget
    | InvalidLoad
    | InvalidOpcode
    | InvalidRegister

  // ----- input -----

  datatype Order = LittleEndian | BigEndian

  /** A byte slice read with bounds checks; unaligned loads are allowed. */
  datatype Input = InputBytes(data: seq<u8>, order: Order) {
    function Load32(off: u32): Option<u32> {
      if off + 4 > |data| then None
      else if order == LittleEndian then
        Some(data[off] + TWO_8 * (data[off + 1] + TWO_8 * (data[off + 2] + TWO_8 * data[off + 3])))
      else
        Some(data[off + 3] + TWO_8 * (data[off + 2] + TWO_8 * (data[off + 1] + TWO_8 * data[off])))
    }

    function Load16(off: u32): Option<u32> {
      if off + 2 > |data| then None
      else if order == LittleEndian then Some(data[off] + TWO_8 * data[off + 1])
      else Some(data[off + 1] + TWO_8 * data[off])
    }

    function Load8(off: u32): Option<u32> {
      if off + 1 > |data| then None else Some(data[off])
    }

    function Length(): u32 { Wrap32(|data|) }
  }

  // ----- machine -----

  datatype MachineState = MachineState(a: u32, x: u32, mem: seq<u32>)

  type Machine = m: MachineState | |m.mem| == SCRATCH_MEM_REGISTERS
    witness MachineState(0, 0, seq(SCRATCH_MEM_REGISTERS, i => 0))

  const ZERO_MACHINE: Machine := MachineState(0, 0, seq(SCRATCH_MEM_REGISTERS, i => 0))

  /** How an execution ends. Panic stands for the run-time panics of the
      interpreter's host language (index out of range, division by zero). */
  datatype Result = Return(value: u32) | Failure(code: ErrorCode, pc: nat) | Panic

  /** The effect of one instruction: go on at a relative offset, or stop. */
  datatype Outcome = Next(m: Machine, off: nat) | Stop(result: Result)

  function SetA(m: Machine, a: u32): Outcome { Next(m.(a := a), 0) }
  function SetX(m: Machine, x: u32): Outcome { Next(m.(x := x), 0) }

  function Loaded(v: Option<u32>, m: Machine, pc: nat): Outcome {
    if v.None? then Stop(Failure(InvalidLoad, pc)) else SetA(m, v.value)
  }

  predicate IsConditional(op: bv16) {
    || op == JMP | JEQ | SRC_K || op == JMP | JEQ | SRC_X
    || op == JMP | JGT | SRC_K || op == JMP | JGT | SRC_X
    || op == JMP | JGE | SRC_K || op == JMP | JGE | SRC_X
    || op == JMP | JSET | SRC_K || op == JMP | JSET | SRC_X
  }

  /** The condition a conditional jump tests. */
  predicate Condition(op: bv16, k: u32, m: Machine)
    requires IsConditional(op)
  {
    if op == JMP | JEQ | SRC_K then m.a == k
    else if op == JMP | JEQ | SRC_X then m.a == m.x
    else if op == JMP | JGT | SRC_K then m.a > k
    else if op == JMP | JGT | SRC_X then m.a > m.x
    else if op == JMP | JGE | SRC_K then m.a >= k
    else if op == JMP | JGE | SRC_X then m.a >= m.x
    else if op == JMP | JSET | SRC_K then And32(m.a, k) != 0
    else And32(m.a, m.x) != 0
  }

  /** Load instructions. */
  function StepLoad(i: Insn, input: Input, m: Machine, pc: nat): Outcome {
    if i.op == LD | IMM | W then SetA(m, i.k)
    else if i.op == LD | ABS | W then Loaded(input.Load32(i.k), m, pc)
    else if i.op == LD | ABS | H then Loaded(input.Load16(i.k), m, pc)
    else if i.op == LD | ABS | B then Loaded(input.Load8(i.k), m, pc)
    else if i.op == LD | IND | W then Loaded(input.Load32(Wrap32(m.x + i.k)), m, pc)
    else if i.op == LD | IND | H then Loaded(input.Load16(Wrap32(m.x + i.k)), m, pc)
    else if i.op == LD | IND | B then Loaded(input.Load8(Wrap32(m.x + i.k)), m, pc)
    else if i.op == LD | MEM | W then if i.k < SCRATCH_MEM_REGISTERS then SetA(m, m.mem[i.k]) else Stop(Panic)
    else if i.op == LD | LEN | W then SetA(m, input.Length())
    else if i.op == LDX | IMM | W then SetX(m, i.k)
    else if i.op == LDX | MEM | W then if i.k < SCRATCH_MEM_REGISTERS then SetX(m, m.mem[i.k]) else Stop(Panic)
    else if i.op == LDX | LEN | W then SetX(m, input.Length())
    else if i.op == LDX | MSH | B then
      var v := input.Load8(i.k);
      if v.None? then Stop(Failure(InvalidLoad, pc)) else SetX(m, 4 * (v.value % 16))
    else Stop(Failure(InvalidOpcode, pc))
  }

  /** Arithmetic instructions. */
  function StepAlu(i: Insn, m: Machine, pc: nat): Outcome {
    if i.op == ALU | ADD | SRC_K then SetA(m, Wrap32(m.a + i.k))
    else if i.op == ALU | ADD | SRC_X then SetA(m, Wrap32(m.a + m.x))
    else if i.op == ALU | SUB | SRC_K then SetA(m, Wrap32(m.a - i.k))
    else if i.op == ALU | SUB | SRC_X then SetA(m, Wrap32(m.a - m.x))
    else if i.op == ALU | MUL | SRC_K then SetA(m, Wrap32(m.a * i.k))
    else if i.op == ALU | MUL | SRC_X then SetA(m, Wrap32(m.a * m.x))
    else if i.op == ALU | DIV | SRC_K then
      if i.k == 0 then Stop(Panic) else DivBound(m.a, i.k); SetA(m, m.a / i.k)
    else if i.op == ALU | DIV | SRC_X then
      if m.x == 0 then Stop(Failure(DivisionByZero, pc)) else DivBound(m.a, m.x); SetA(m, m.a / m.x)
    else if i.op == ALU | OR_OP | SRC_K then SetA(m, Or32(m.a, i.k))
    else if i.op == ALU | OR_OP | SRC_X then SetA(m, Or32(m.a, m.x))
    else if i.op == ALU | AND_OP | SRC_K then SetA(m, And32(m.a, i.k))
    else if i.op == ALU | AND_OP | SRC_X then SetA(m, And32(m.a, m.x))
    else if i.op == ALU | LSH | SRC_K then SetA(m, Lsh32(m.a, i.k))
    else if i.op == ALU | LSH | SRC_X then SetA(m, Lsh32(m.a, m.x))
    else if i.op == ALU | RSH | SRC_K then SetA(m, Rsh32(m.a, i.k))
    else if i.op == ALU | RSH | SRC_X then SetA(m, Rsh32(m.a, m.x))
    else if i.op == ALU | NEG then SetA(m, Wrap32(0 - m.a))
    else if i.op == ALU | MOD | SRC_K then
      if i.k == 0 then Stop(Panic) else SetA(m, m.a % i.k)
    else if i.op == ALU | MOD | SRC_X then
      if m.x == 0 then Stop(Failure(DivisionByZero, pc)) else SetA(m, m.a % m.x)
    else if i.op == ALU | XOR_OP | SRC_K then SetA(m, Xor32(m.a, i.k))
    else if i.op == ALU | XOR_OP | SRC_X then SetA(m, Xor32(m.a, m.x))
    else Stop(Failure(InvalidOpcode, pc))
  }

  /** Stores, jumps, returns and moves. TAX and TXA act as the interpreter has
      them, with TAX reading X and TXA reading A. */
  function StepOther(i: Insn, m: Machine, pc: nat): Outcome {
    if i.op == ST then if i.k < SCRATCH_MEM_REGISTERS then Next(m.(mem := m.mem[i.k := m.a]), 0) else Stop(Panic)
    else if i.op == STX then if i.k < SCRATCH_MEM_REGISTERS then Next(m.(mem := m.mem[i.k := m.x]), 0) else Stop(Panic)
    else if i.op == JMP | JA then Next(m, i.k)
    else if IsConditional(i.op) then Next(m, if Condition(i.op, i.k, m) then i.jt else i.jf)
    else if i.op == RET | SRC_K then Stop(Return(i.k))
    else if i.op == RET | SRC_A then Stop(Return(m.a))
    else if i.op == MISC | TAX then SetA(m, m.x)
    else if i.op == MISC | TXA then SetX(m, m.a)
    else Stop(Failure(InvalidOpcode, pc))
  }

  function Step(i: Insn, input: Input, m: Machine, pc: nat): Outcome {
    var cls := i.op & INSTRUCTION_CLASS_MASK;
    if cls == LD || cls == LDX then StepLoad(i, input, m, pc)
    else if cls == ALU then StepAlu(i, m, pc)
    else StepOther(i, m, pc)
  }

  /** The run of program p from line pc. Every instruction moves pc forward, so
      any program, validated or not, stops. */
  function Run(p: seq<Insn>, input: Input, pc: nat, m: Machine): Result
    decreases |p| - pc
  {
    if pc >= |p| then Failure(InvalidEndOfProgram, pc)
    else
      match Step(p[pc], input, m, pc)
      case Stop(r) => r
      case Next(m', off) => Run(p, input, pc + 1 + off, m')
  }

  /** The lines the run visits, in order. */
  ghost function Visited(p: seq<Insn>, input: Input, pc: nat, m: Machine): seq<nat>
    decreases |p| - pc
  {
    if pc >= |p| then []
    else
      match Step(p[pc], input, m, pc)
      case Stop(r) => [pc]
      case Next(m', off) => [pc] + Visited(p, input, pc + 1 + off, m')
  }

  /** The interpreter loop. */
  method Exec(p: seq<Insn>, input: Input) returns (r: Result)
    ensures r == Run(p, input, 0, ZERO_MACHINE)
    ensures Accepted(p) ==> SafeEnd(r)
  {
    hide Step, Accepted, SafeEnd;
    if Accepted(p) { AcceptedIsNotEmpty(p); AcceptedRunsSafely(p, input, 0, ZERO_MACHINE); }
    var m, pc := ZERO_MACHINE, 0;
    while pc < |p|
      invariant Run(p, input, 0, ZERO_MACHINE) == Run(p, input, pc, m)
      decreases |p| - pc
    {
      match Step(p[pc], input, m, pc) {
        case Stop(result) => return result;
        case Next(m', off) => m, pc := m', pc + 1 + off;
      }
    }
    r := Failure(InvalidEndOfProgram, pc);
  }

  // ----- validation -----

  function CheckLoad(i: Insn): Option<ErrorCode> {
    var mode, size := i.op & LOAD_MODE_MASK, i.op & LOAD_SIZE_MASK;
    if size == W then
      if mode != IMM && mode != ABS && mode != IND && mode != MEM && mode != LEN then Some(InvalidOpcode)
      else if mode == MEM && i.k >= SCRATCH_MEM_REGISTERS then Some(InvalidRegister)
      else None
    else if size == H || size == B then
      if mode != ABS && mode != IND then Some(InvalidOpcode) else None
    else Some(InvalidOpcode)
  }

  function CheckLoadX(i: Insn): Option<ErrorCode> {
    var mode, size := i.op & LOAD_MODE_MASK, i.op & LOAD_SIZE_MASK;
    if size == W then
      if mode != IMM && mode != MEM && mode != LEN then Some(InvalidOpcode)
      else if mode == MEM && i.k >= SCRATCH_MEM_REGISTERS then Some(InvalidRegister)
      else None
    else if size == B then
      if mode != MSH then Some(InvalidOpcode) else None
    else Some(InvalidOpcode)
  }

  function CheckStore(i: Insn): Option<ErrorCode> {
    if i.op & STORE_UNUSED_BITS_MASK != 0 then Some(InvalidOpcode)
    else if i.k >= SCRATCH_MEM_REGISTERS then Some(InvalidRegister)
    else None
  }

  function CheckAlu(i: Insn): Option<ErrorCode> {
    var code, src := i.op & ALU_MASK, i.op & SRC_ALU_JMP_MASK;
    if code == ADD || code == SUB || code == MUL || code == OR_OP || code == AND_OP
       || code == LSH || code == RSH || code == XOR_OP then None
    else if code == DIV || code == MOD then
      if src == SRC_K && i.k == 0 then Some(DivisionByZero) else None
    else if code == NEG then
      if src != 0 then Some(InvalidOpcode) else None
    else Some(InvalidOpcode)
  }

  function CheckJump(i: Insn, pc: nat, n: nat): Option<ErrorCode> {
    var code := i.op & JMP_MASK;
    if code == JA then
      if i.op & SRC_ALU_JMP_MASK != 0 then Some(InvalidOpcode)
      else if pc + i.k + 1 >= n then Some(InvalidJumpTarget)
      else None
    else if code == JEQ || code == JGT || code == JGE || code == JSET then
      if pc + i.jt + 1 >= n || pc + i.jf + 1 >= n then Some(InvalidJumpTarget) else None
    else Some(InvalidOpcode)
  }

  function CheckRet(i: Insn): Option<ErrorCode> {
    if i.op & RET_UNUSED_BITS_MASK != 0 then Some(InvalidOpcode)
    else if i.op & SRC_RET_MASK != SRC_K && i.op & SRC_RET_MASK != SRC_A then Some(InvalidOpcode)
    else None
  }

  /** The validator's verdict on the instruction at line pc of an n-line program. */
  function CheckInsn(i: Insn, pc: nat, n: nat): Option<ErrorCode> {
    var cls := i.op & INSTRUCTION_CLASS_MASK;
    if i.op & UNUSED_BITS_MASK != 0 then Some(InvalidOpcode)
    else if cls == LD then CheckLoad(i)
    else if cls == LDX then CheckLoadX(i)
    else if cls == ST || cls == STX then CheckStore(i)
    else if cls == ALU then CheckAlu(i)
    else if cls == JMP then CheckJump(i, pc, n)
    else if cls == RET then CheckRet(i)
    else if i.op & MISC_MASK != TAX && i.op & MISC_MASK != TXA then Some(InvalidOpcode)
    else None
  }

  predicate EndsInReturn(p: seq<Insn>)
    requires |p| > 0
  {
    var last := p[|p| - 1];
    last.op == RET | SRC_K || last.op == RET | SRC_A
  }

  /** Programs the validator accepts. */
  ghost predicate Accepted(p: seq<Insn>) {
    && 0 < |p| <= MAX_INSTRUCTIONS
    && EndsInReturn(p)
    && forall pc :: 0 <= pc < |p| ==> CheckInsn(p[pc], pc, |p|) == None
  }

  datatype CompileResult = Ok(program: seq<Insn>) | Err(code: ErrorCode, pc: nat)

  /** The validator: accepts exactly the Accepted programs, and otherwise
      reports the first offending line. */
  method Compile(insns: seq<Insn>) returns (r: CompileResult)
    ensures r.Ok? <==> Accepted(insns)
    ensures r.Ok? ==> r.program == insns
    ensures (|insns| == 0 || |insns| > MAX_INSTRUCTIONS) ==> r == Err(InvalidInstructionCount, |insns|)
    ensures 0 < |insns| <= MAX_INSTRUCTIONS && !EndsInReturn(insns) ==> r == Err(InvalidEndOfProgram, |insns| - 1)
    ensures r.Err? && 0 < |insns| <= MAX_INSTRUCTIONS && EndsInReturn(insns) ==>
              && r.pc < |insns| && CheckInsn(insns[r.pc], r.pc, |insns|) == Some(r.code)
              && forall j :: 0 <= j < r.pc ==> CheckInsn(insns[j], j, |insns|) == None
  {
    if |insns| == 0 || |insns| > MAX_INSTRUCTIONS {
      return Err(InvalidInstructionCount, |insns|);
    }
    if !EndsInReturn(insns) {
      return Err(InvalidEndOfProgram, |insns| - 1);
    }
    for pc := 0 to |insns|
      invariant forall j :: 0 <= j < pc ==> CheckInsn(insns[j], j, |insns|) == None
    {
      var bad := CheckInsn(insns[pc], pc, |insns|);
      if bad.Some? {
        return Err(bad.value, pc);
      }
    }
    r := Ok(insns);
  }

  // ----- accepted programs run safely -----

  /** How the run of an accepted program may end. */
  predicate SafeEnd(r: Result) {
    r.Return? || (r.Failure? && (r.code == InvalidLoad || r.code == DivisionByZero))
  }

  lemma AcceptedLoadIsSafe(i: Insn, input: Input, m: Machine, pc: nat, n: nat)
    requires CheckInsn(i, pc, n) == None
    requires i.op & INSTRUCTION_CLASS_MASK == LD || i.op & INSTRUCTION_CLASS_MASK == LDX
    ensures var o := Step(i, input, m, pc); if o.Stop? then SafeEnd(o.result) else o.off == 0
  {
    if i.op & INSTRUCTION_CLASS_MASK == LD {
      assert i.op == LD | (i.op & LOAD_MODE_MASK) | (i.op & LOAD_SIZE_MASK);
    } else {
      assert i.op == LDX | (i.op & LOAD_MODE_MASK) | (i.op & LOAD_SIZE_MASK);
    }
  }

  lemma AcceptedAluIsSafe(i: Insn, input: Input, m: Machine, pc: nat, n: nat)
    requires CheckInsn(i, pc, n) == None
    requires i.op & INSTRUCTION_CLASS_MASK == ALU
    ensures var o := Step(i, input, m, pc); if o.Stop? then SafeEnd(o.result) else o.off == 0
  {
    assert i.op == ALU | (i.op & ALU_MASK) | (i.op & SRC_ALU_JMP_MASK);
    assert i.op & SRC_ALU_JMP_MASK == SRC_K || i.op & SRC_ALU_JMP_MASK == SRC_X;
  }

  lemma AcceptedOtherIsSafe(i: Insn, input: Input, m: Machine, pc: nat, n: nat)
    requires CheckInsn(i, pc, n) == None
    requires var c := i.op & INSTRUCTION_CLASS_MASK; c != LD && c != LDX && c != ALU
    ensures var o := Step(i, input, m, pc);
            if o.Stop? then SafeEnd(o.result) else o.off == 0 || pc + 1 + o.off < n
  {
  }

  lemma AcceptedIsNotEmpty(p: seq<Insn>)
    requires Accepted(p)
    ensures |p| > 0
  {
  }

  /** Every program the validator accepts runs to a return, a failed load or a
      division by zero: never an invalid opcode, a run off the end, or a panic. */
  lemma {:induction false} AcceptedRunsSafely(p: seq<Insn>, input: Input, pc: nat, m: Machine)
    requires Accepted(p) && pc < |p|
    ensures SafeEnd(Run(p, input, pc, m))
    decreases |p| - pc
  {
    hide Step, CheckInsn;
    StepIsSafe(p, input, pc, m);
    match Step(p[pc], input, m, pc) {
      case Stop(_) =>
      case Next(m', off) => AcceptedRunsSafely(p, input, pc + 1 + off, m');
    }
  }

  lemma StepIsSafe(p: seq<Insn>, input: Input, pc: nat, m: Machine)
    requires Accepted(p) && pc < |p|
    ensures var o := Step(p[pc], input, m, pc);
            if o.Stop? then SafeEnd(o.result) else pc + 1 + o.off < |p|
  {
    var i := p[pc];
    assert CheckInsn(i, pc, |p|) == None;
    var cls := i.op & INSTRUCTION_CLASS_MASK;
    if cls == LD || cls == LDX {
      AcceptedLoadIsSafe(i, input, m, pc, |p|);
    } else if cls == ALU {
      AcceptedAluIsSafe(i, input, m, pc, |p|);
    } else {
      AcceptedOtherIsSafe(i, input, m, pc, |p|);
    }
  }

  /** The run visits strictly increasing lines inside the program, hence takes at
      most one step per instruction. */
  lemma {:induction false} VisitsEachLineOnce(p: seq<Insn>, input: Input, pc: nat, m: Machine)
    ensures var v := Visited(p, input, pc, m);
            && (forall j :: 0 <= j < |v| ==> pc <= v[j] < |p|)
            && (forall j, k :: 0 <= j < k < |v| ==> v[j] < v[k])
            && |v| <= (if pc < |p| then |p| - pc else 0)
    decreases |p| - pc
  {
    hide Step;
    if pc < |p| {
      match Step(p[pc], input, m, pc) {
        case Stop(_) =>
        case Next(m', off) => VisitsEachLineOnce(p, input, pc + 1 + off, m');
      }
    }
  }
}
