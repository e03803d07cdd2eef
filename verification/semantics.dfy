/**
 * The engine's meaning as functions over a snapshot of its state: one
 * fetch/decode/execute step, and the run loop bounded by a step budget.
 * The class in engine.dfy is proved to follow these functions.
 */
module Semantics {
  import opened Words
  import opened Wrappers
  import opened OpCodes
  import opened Chars

  /**
   * The double arithmetic (FADD, FSUB, FMUL, FDIV) and the conversions
   * (CWTOR, CSWTOR, CRTOW, CRTOSW): the new `ax` from `ax` and `bx`. IEEE-754
   * arithmetic is not modelled, so the engine is parameterised by it.
   */
  type FloatUnit = (FloatOp, Word, Word) -> Word

  /** The conditions under which the engine aborts the whole process. */
  datatype Fault =
    | UnknownOpcode(opcode: Word)
    | UnknownSyscall(code: Word)
    | DivisionByZero
      // an overflow check of a debug build: `sp -= 1` or `lp = sp - 1` at 0, a shift by 64 or more
    | ArithmeticOverflow
    | IndexOutOfBounds(address: Word)
      // `into_char().unwrap()` on a word that is not a Unicode scalar value
    | NotAChar(word: Word)

  /** A snapshot of the engine: its memory (of length `max_address`), pointers, registers and the text written so far. */
  datatype Machine = Machine(
    memory: seq<Word>,
    ip: Word, sp: Word, fp: Word, lp: Word,
    ax: Word, bx: Word, cx: Word, dx: Word,
    output: seq<char>)

  /** `max_address` is a byte count divided by the word size, far below the largest word. */
  predicate Sized(m: Machine)
  {
    |m.memory| < WORD_MAX
  }

  /** The outcome of one step: the next state, an abort, or a read from standard input (not modelled). */
  datatype StepResult = Next(m: Machine) | Trap(fault: Fault) | NeedsInput

  function RegValue(m: Machine, r: Reg): Word
  {
    match r
    case AX => m.ax
    case BX => m.bx
    case CX => m.cx
    case DX => m.dx
  }

  function SetReg(m: Machine, r: Reg, v: Word): (m': Machine)
    ensures RegValue(m', r) == v
    ensures forall q :: q != r ==> RegValue(m', q) == RegValue(m, q)
    ensures m'.memory == m.memory && m'.ip == m.ip && m'.sp == m.sp && m'.output == m.output
    ensures m'.fp == m.fp && m'.lp == m.lp
  {
    match r
    case AX => m.(ax := v)
    case BX => m.(bx := v)
    case CX => m.(cx := v)
    case DX => m.(dx := v)
  }

  // ------------------------------------------------------------ arithmetic

  /** The new `ax` of a one-operand instruction; each is undone by its partner operation. */
  function UnaryResult(u: UnaryOp, ax: Word): (r: Word)
    ensures u == Inc ==> WrappingSub(r, 1) == ax
    ensures u == Dec ==> WrappingAdd(r, 1) == ax
    ensures u == Neg ==> WrappingAdd(ax, r) == 0
    ensures u == Not ==> BitNot(r) == ax
    ensures u == FNeg ==> FloatNeg(r) == ax
  {
    match u
    case Inc => WrappingAdd(ax, 1)
    case Dec => WrappingSub(ax, 1)
    case Neg => WrappingNeg(ax)
    case Not => BitNot(ax)
    case FNeg => FloatNeg(ax)
  }

  /** The new `ax` and `bx` of a binary operation, or the abort it causes. */
  function BinaryResult(b: BinaryOp, ax: Word, bx: Word): (r: Result<(Word, Word), Fault>)
    ensures r.Err? <==> (b == Div && (bx == 0 || ax % bx == 0)) || ((b == Shl || b == Shr) && bx >= 64)
    ensures r.Err? ==> r.error == if b == Div then DivisionByZero else ArithmeticOverflow
    ensures r.Ok? ==> r.value.1 == if b == Div then ax % bx else bx
    ensures r.Ok? && (b == Shr || b == And) ==> r.value.0 <= ax
    ensures r.Ok? && b == Or ==> r.value.0 >= ax
  {
    match b
    case Add => Ok((WrappingAdd(ax, bx), bx))
    case Sub => Ok((WrappingSub(ax, bx), bx))
    case Mul => Ok((WrappingMul(ax, bx), bx))
    case Div =>
      // the remainder is stored in bx first, and the quotient divides by it
      if bx == 0 then Err(DivisionByZero)
      else
        var rem := ax % bx;
        if rem == 0 then Err(DivisionByZero) else Ok((ax / rem, rem))
    case And => Ok((BitAnd(ax, bx), bx))
    case Or => Ok((BitOr(ax, bx), bx))
    case Xor => Ok((BitXor(ax, bx), bx))
    case Shl => if bx >= 64 then Err(ArithmeticOverflow) else Ok((ShiftLeft(ax, bx), bx))
    case Shr => if bx >= 64 then Err(ArithmeticOverflow) else Ok((ShiftRight(ax, bx), bx))
  }

  /** Whether a conditional jump is taken. The signed and double comparisons read both operands from `ax`. */
  predicate Taken(c: Cond, ax: Word, bx: Word): (t: bool)
    ensures c == Greater || c == Less || c == FGreater || c == FLess ==> !t
    ensures c == GreaterEq || c == LessEq ==> t
    ensures c == FGreaterEq || c == FLessEq ==> (t <==> !IsNaN(ax))
  {
    // the signed and double arms take their right-hand operand from `ax` as well
    var rhs := ax;
    match c
    case Always => true
    case Equal => ax == bx
    case NotEqual => ax != bx
    case Greater => Signed(ax) > Signed(rhs)
    case GreaterEq => Signed(ax) >= Signed(rhs)
    case Less => Signed(ax) < Signed(rhs)
    case LessEq => Signed(ax) <= Signed(rhs)
    case Above => ax > bx
    case AboveEq => ax >= bx
    case Below => ax < bx
    case BelowEq => ax <= bx
    case FGreater => FloatLess(rhs, ax)
    case FGreaterEq => FloatLessEq(rhs, ax)
    case FLess => FloatLess(ax, rhs)
    case FLessEq => FloatLessEq(ax, rhs)
  }

  // ------------------------------------------------------------ syscalls

  /** The word at `k` exists and reads as a character. */
  predicate Printable(memory: seq<Word>, k: int)
  {
    0 <= k < |memory| && IntoChar(memory[k]).Some?
  }

  /**
   * The text syscall 0 prints: `count` words from `address` on, each read as
   * a character, or the abort of the first word that is out of memory or no
   * character.
   */
  function WriteChars(memory: seq<Word>, address: Word, count: nat): (r: Result<seq<char>, Fault>)
    requires |memory| < WORD_MAX
    ensures r.Ok? <==> forall k :: address <= k < address + count ==> Printable(memory, k)
    ensures r.Ok? ==> count == 0 || address + count <= |memory|
    ensures r.Ok? ==> |r.value| == count
    ensures r.Ok? ==> forall k :: 0 <= k < count ==> IntoChar(memory[address + k]) == Some(r.value[k])
    decreases count
  {
    if count == 0 then Ok([])
    else if address >= |memory| then
      assert !Printable(memory, address);
      Err(IndexOutOfBounds(address))
    else
      match IntoChar(memory[address])
      case None =>
        assert !Printable(memory, address);
        Err(NotAChar(memory[address]))
      case Some(c) =>
        match WriteChars(memory, address + 1, count - 1)
        case Err(f) => Err(f)
        case Ok(rest) => Ok([c] + rest)
  }

  /** SYSCALL: 0 prints `cx` characters from `dx`, 1 reads a line, 2 ends the run with `dx` in `ax`. */
  function SyscallStep(m: Machine): (r: StepResult)
    requires Sized(m) && m.ip < |m.memory|
    ensures r.NeedsInput? <==> m.ax == 1
    ensures r.Trap? <==> m.ax > 2 || (m.ax == 0 && WriteChars(m.memory, m.dx, m.cx).Err?)
    ensures m.ax == 2 ==> r.Next? && r.m.ax == m.dx && r.m.ip > |m.memory|
    ensures m.ax == 0 && r.Next? ==> r.m.ip == m.ip + 1 && r.m.cx == 0 && r.m.dx == m.dx + m.cx
    ensures m.ax == 0 && r.Next? ==> |r.m.output| == |m.output| + m.cx && r.m.output[..|m.output|] == m.output
    ensures r.Next? ==> r.m.memory == m.memory && r.m.sp == m.sp && r.m.fp == m.fp && r.m.lp == m.lp
  {
    if m.ax == 0 then
      match WriteChars(m.memory, m.dx, m.cx)
      case Err(f) => Trap(f)
      case Ok(text) => Next(m.(output := m.output + text, dx := m.dx + m.cx, cx := 0, ip := m.ip + 1))
    else if m.ax == 1 then NeedsInput
    else if m.ax == 2 then
      // ip := max_address, then the common ip += 1
      Next(m.(ax := m.dx, ip := |m.memory| + 1))
    else Trap(UnknownSyscall(m.ax))
  }

  // ------------------------------------------------------------ one step

  /** The effect of one decoded instruction at `ip`. */
  function Exec(m: Machine, i: Instr, fpu: FloatUnit): (r: StepResult)
    requires Sized(m) && m.ip < |m.memory|
    ensures r.NeedsInput? ==> i == Syscall && m.ax == 1
    ensures r.Next? ==> |r.m.memory| == |m.memory| && r.m.fp == m.fp && r.m.lp == m.lp
    ensures r.Next? && i != Push && i != Call ==> r.m.memory == m.memory
    ensures r.Next? && i != Syscall ==> r.m.output == m.output
    ensures r.Next? && !(i.Push? || i.Pop? || i.Call? || i.Ret?) ==> r.m.sp == m.sp
  {
    var mem := m.memory;
    match i
    case Push =>
      if m.sp == 0 then Trap(ArithmeticOverflow)
      else if m.sp - 1 >= |mem| then Trap(IndexOutOfBounds(m.sp - 1))
      else Next(m.(sp := m.sp - 1, memory := mem[m.sp - 1 := m.cx], ip := m.ip + 1))
    case Pop =>
      if m.sp >= |mem| then Trap(IndexOutOfBounds(m.sp))
      else Next(m.(cx := mem[m.sp], sp := m.sp + 1, ip := m.ip + 1))
    case Unary(u) => Next(m.(ax := UnaryResult(u, m.ax), ip := m.ip + 1))
    case Binary(b) =>
      (match BinaryResult(b, m.ax, m.bx)
       case Err(f) => Trap(f)
       case Ok((ax, bx)) => Next(m.(ax := ax, bx := bx, ip := m.ip + 1)))
    case Float(f) => Next(m.(ax := fpu(f, m.ax, m.bx), ip := m.ip + 1))
    case Jump(c) => if Taken(c, m.ax, m.bx) then Next(m.(ip := m.dx)) else Next(m.(ip := m.ip + 1))
    case Call =>
      if m.sp == 0 then Trap(ArithmeticOverflow)
      else if m.sp - 1 >= |mem| then Trap(IndexOutOfBounds(m.sp - 1))
      else Next(m.(sp := m.sp - 1, memory := mem[m.sp - 1 := m.ip + 1], ip := m.dx))
    case Ret =>
      if m.sp >= |mem| then Trap(IndexOutOfBounds(m.sp))
      else Next(m.(dx := mem[m.sp], sp := m.sp + 1, ip := mem[m.sp]))
    case Syscall => SyscallStep(m)
    case MoveImm(r) =>
      if m.ip + 1 >= |mem| then Trap(IndexOutOfBounds(m.ip + 1))
      else Next(SetReg(m, r, mem[m.ip + 1]).(ip := m.ip + 2))
    case Move(src, dst) => Next(SetReg(m, dst, RegValue(m, src)).(ip := m.ip + 1))
  }

  /** Fetch the word at `ip`, decode it, execute it; a word the dispatch does not know aborts. */
  function Step(m: Machine, fpu: FloatUnit): (r: StepResult)
    requires Sized(m) && m.ip < |m.memory|
    ensures r.Next? ==> |r.m.memory| == |m.memory| && r.m.fp == m.fp && r.m.lp == m.lp
    ensures r.Next? && m.sp <= |m.memory| ==> r.m.sp <= |m.memory|
  {
    var op := m.memory[m.ip];
    match Decode(op)
    case None => Trap(UnknownOpcode(op))
    case Some(i) => Exec(m, i, fpu)
  }

  // ------------------------------------------------------------ the loop

  datatype Outcome =
    | Halted(m: Machine)
    | Aborted(fault: Fault)
    | AwaitingInput(m: Machine)
    | OutOfFuel(m: Machine)

  /** The fetch/decode/execute loop, run while `ip < max_address`, for at most `fuel` steps. */
  function Run(m: Machine, fpu: FloatUnit, fuel: nat): (r: Outcome)
    requires Sized(m)
    ensures r.Halted? ==> r.m.ip >= |r.m.memory| == |m.memory|
    ensures !r.Aborted? ==> |r.m.memory| == |m.memory| && r.m.fp == m.fp && r.m.lp == m.lp
    ensures !r.Aborted? && m.sp <= |m.memory| ==> r.m.sp <= |m.memory|
    decreases fuel
  {
    if m.ip >= |m.memory| then Halted(m)
    else if fuel == 0 then OutOfFuel(m)
    else
      match Step(m, fpu)
      case Next(m') => Run(m', fpu, fuel - 1)
      case Trap(f) => Aborted(f)
      case NeedsInput => AwaitingInput(m)
  }

  /** The state `execute` starts its loop from: the stack, frame and local pointers at the top of memory. */
  function StackReset(m: Machine): (r: Machine)
    requires 0 < |m.memory| < WORD_MAX
    ensures r.sp == |m.memory| && r.fp == |m.memory| && r.lp == |m.memory| - 1
    ensures r.(sp := m.sp, fp := m.fp, lp := m.lp) == m
  {
    m.(sp := |m.memory|, fp := |m.memory|, lp := |m.memory| - 1)
  }

  /** `execute`: reset the stack pointers (`lp = sp - 1` overflows on an empty memory), then run. */
  function Execute(m: Machine, fpu: FloatUnit, fuel: nat): (r: Outcome)
    requires Sized(m)
    ensures |m.memory| == 0 ==> r == Aborted(ArithmeticOverflow)
    ensures r.Halted? ==> r.m.ip >= |r.m.memory| == |m.memory|
    ensures !r.Aborted? ==> |r.m.memory| == |m.memory| && r.m.fp == |m.memory| && r.m.lp == |m.memory| - 1
    ensures !r.Aborted? ==> r.m.sp <= |m.memory|
  {
    if |m.memory| == 0 then Aborted(ArithmeticOverflow)
    else
      Run(StackReset(m), fpu, fuel)
  }
}
