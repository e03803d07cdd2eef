/**
 * What the engine's step and loop guarantee: decoding failures, the effect of
 * each instruction family, the stack discipline, the syscalls, and two whole
 * programs run to completion.
 */
module Properties {
  import opened Words
  import opened Wrappers
  import opened OpCodes
  import opened Chars
  import opened Semantics
  import ImageBuilder

  // ------------------------------------------------------------ dispatch

  /** A word outside the catalog, and DEREF, which has no arm, abort the run. */
  lemma UnknownWordAborts(m: Machine, fpu: FloatUnit)
    requires Sized(m) && m.ip < |m.memory|
    requires !IsOpCode(m.memory[m.ip]) || m.memory[m.ip] == DEREF
    ensures Step(m, fpu) == Trap(UnknownOpcode(m.memory[m.ip]))
  {
    DecodeDefinedExactly(m.memory[m.ip]);
  }

  /** Zero-filled memory is fatal: executing a zero word aborts the run at once. */
  lemma ZeroWordIsFatal(m: Machine, fpu: FloatUnit, fuel: nat)
    requires Sized(m) && m.ip < |m.memory| && m.memory[m.ip] == 0
    requires fuel > 0
    ensures Run(m, fpu, fuel) == Aborted(UnknownOpcode(0))
  {
    OpCodeRange(0);
    UnknownWordAborts(m, fpu);
  }

  /** An instruction that does not transfer control advances `ip` past its own words. */
  lemma StepAdvancesBySize(m: Machine, fpu: FloatUnit)
    requires Sized(m) && m.ip < |m.memory|
    requires Decode(m.memory[m.ip]).Some?
    requires var i := Decode(m.memory[m.ip]).value; !(i.Jump? || i.Call? || i.Ret? || i.Syscall?)
    requires Step(m, fpu).Next?
    ensures Step(m, fpu).m.ip == m.ip + Size(Decode(m.memory[m.ip]).value)
  {
  }

  // ------------------------------------------------------------ arithmetic

  /** The unary operations change `ax` and advance `ip`; nothing else. */
  lemma UnaryTouchesOnlyAx(m: Machine, fpu: FloatUnit, u: UnaryOp)
    requires Sized(m) && m.ip < |m.memory| && m.memory[m.ip] == Encode(Unary(u))
    ensures Step(m, fpu).Next?
    ensures Step(m, fpu).m.(ax := m.ax, ip := m.ip) == m
    ensures Step(m, fpu).m.ip == m.ip + 1
  {
    DecodeEncode(Unary(u));
  }

  /** The binary operations other than DIV change `ax` and advance `ip`; DIV also writes `bx`. */
  lemma BinaryTouchesOnlyAx(m: Machine, fpu: FloatUnit, b: BinaryOp)
    requires Sized(m) && m.ip < |m.memory| && m.memory[m.ip] == Encode(Binary(b))
    ensures Step(m, fpu).Next? <==> BinaryResult(b, m.ax, m.bx).Ok?
    ensures Step(m, fpu).Next? ==> Step(m, fpu).m.(ax := m.ax, bx := m.bx, ip := m.ip) == m
    ensures Step(m, fpu).Next? ==> Step(m, fpu).m.ip == m.ip + 1
    ensures Step(m, fpu).Next? && b != Div ==> Step(m, fpu).m.bx == m.bx
  {
    DecodeEncode(Binary(b));
  }

  /** Addition, subtraction, multiplication and increment wrap around instead of trapping. */
  lemma ArithmeticWraps()
    ensures BinaryResult(Add, WORD_MAX, 1) == Ok((0, 1))
    ensures BinaryResult(Sub, 0, 1) == Ok((WORD_MAX, 1))
    ensures BinaryResult(Mul, WORD_MAX, WORD_MAX) == Ok((1, WORD_MAX))
    ensures UnaryResult(Inc, WORD_MAX) == 0
    ensures UnaryResult(Dec, 0) == WORD_MAX
    ensures UnaryResult(Neg, 1) == WORD_MAX
    ensures BinaryResult(Shl, SIGN_BIT, 1) == Ok((0, 1))
  {
    SignBitShiftedOut();
  }

  /** DIV leaves the remainder in `bx` and divides `ax` by that remainder, not by the original divisor. */
  lemma DivDividesByRemainder(ax: Word, bx: Word)
    requires bx != 0 && ax % bx != 0
    ensures BinaryResult(Div, ax, bx).Ok?
    ensures BinaryResult(Div, ax, bx).value.1 == ax % bx
    ensures BinaryResult(Div, ax, bx).value.0 * (ax % bx) <= ax < (BinaryResult(Div, ax, bx).value.0 + 1) * (ax % bx)
  {
  }

  /** Seven divided by two leaves seven in `ax` (and one in `bx`), not three. */
  lemma DivSevenByTwo()
    ensures BinaryResult(Div, 7, 2) == Ok((7, 1))
  {
  }

  // ------------------------------------------------------------ jumps

  /** A jump changes only `ip`: to exactly `dx` when taken, with no increment, and to `ip + 1` otherwise. */
  lemma JumpLandsOnTarget(m: Machine, fpu: FloatUnit, c: Cond)
    requires Sized(m) && m.ip < |m.memory| && m.memory[m.ip] == Encode(Jump(c))
    ensures Step(m, fpu).Next?
    ensures Step(m, fpu).m.(ip := m.ip) == m
    ensures Taken(c, m.ax, m.bx) ==> Step(m, fpu).m.ip == m.dx
    ensures !Taken(c, m.ax, m.bx) ==> Step(m, fpu).m.ip == m.ip + 1
  {
    DecodeEncode(Jump(c));
  }

  /** The unsigned and equality jumps compare `ax` with `bx`. */
  lemma UnsignedJumpsCompareAxWithBx(ax: Word, bx: Word)
    ensures Taken(Equal, ax, bx) <==> ax == bx
    ensures Taken(NotEqual, ax, bx) <==> !Taken(Equal, ax, bx)
    ensures Taken(Above, ax, bx) <==> !Taken(BelowEq, ax, bx)
    ensures Taken(Below, ax, bx) <==> !Taken(AboveEq, ax, bx)
    ensures Taken(AboveEq, ax, bx) <==> Taken(Above, ax, bx) || Taken(Equal, ax, bx)
  {
  }

  // ------------------------------------------------------------ the stack

  /** PUSH followed by POP restores `sp`, leaves the pushed value in `cx` and the word in the freed slot. */
  lemma PushThenPop(m: Machine, fpu: FloatUnit)
    requires Sized(m) && m.ip + 1 < |m.memory|
    requires m.memory[m.ip] == PUSH && m.memory[m.ip + 1] == POP
    requires 0 < m.sp <= |m.memory| && m.sp - 1 != m.ip + 1
    ensures Step(m, fpu).Next?
    ensures Step(m, fpu).m.ip < |Step(m, fpu).m.memory|
    ensures Step(Step(m, fpu).m, fpu).Next?
    ensures var m2 := Step(Step(m, fpu).m, fpu).m;
      m2 == m.(memory := m.memory[m.sp - 1 := m.cx], ip := m.ip + 2)
  {
    DecodeEncode(Push);
    DecodeEncode(Pop);
  }

  /** CALL pushes the return address `ip + 1` and jumps to `dx`; a RET there comes back to it, with `sp` restored. */
  lemma CallThenRet(m: Machine, fpu: FloatUnit)
    requires Sized(m) && m.ip < |m.memory| && m.dx < |m.memory|
    requires m.memory[m.ip] == CALL && m.memory[m.dx] == RET
    requires 0 < m.sp <= |m.memory| && m.sp - 1 != m.dx
    ensures Step(m, fpu).Next?
    ensures var m1 := Step(m, fpu).m;
      m1.ip == m.dx && m1.sp == m.sp - 1 && m1.memory[m1.sp] == m.ip + 1
    ensures Step(Step(m, fpu).m, fpu).Next?
    ensures var m2 := Step(Step(m, fpu).m, fpu).m;
      m2 == m.(memory := m.memory[m.sp - 1 := m.ip + 1], ip := m.ip + 1, dx := m.ip + 1)
  {
    DecodeEncode(Call);
    DecodeEncode(Ret);
  }

  // ------------------------------------------------------------ moves

  /** An immediate load puts the following word in its register and skips both words. */
  lemma MoveImmLoadsOperand(m: Machine, fpu: FloatUnit, r: Reg)
    requires Sized(m) && m.ip + 1 < |m.memory| && m.memory[m.ip] == Encode(MoveImm(r))
    ensures Step(m, fpu).Next?
    ensures RegValue(Step(m, fpu).m, r) == m.memory[m.ip + 1]
    ensures Step(m, fpu).m.ip == m.ip + 2
    ensures forall q :: q != r ==> RegValue(Step(m, fpu).m, q) == RegValue(m, q)
    ensures Step(m, fpu).m.memory == m.memory && Step(m, fpu).m.sp == m.sp
    ensures Step(m, fpu).m == SetReg(m, r, m.memory[m.ip + 1]).(ip := m.ip + 2)
  {
    DecodeEncode(MoveImm(r));
  }

  /** An immediate load whose operand word lies past the end of memory aborts. */
  lemma MoveImmAtEndAborts(m: Machine, fpu: FloatUnit, r: Reg)
    requires Sized(m) && m.ip + 1 == |m.memory| && m.memory[m.ip] == Encode(MoveImm(r))
    ensures Step(m, fpu) == Trap(IndexOutOfBounds(m.ip + 1))
  {
    DecodeEncode(MoveImm(r));
  }

  /** A register move copies the source into the destination and leaves the source as it was. */
  lemma MoveCopiesRegister(m: Machine, fpu: FloatUnit, src: Reg, dst: Reg)
    requires src != dst
    requires Sized(m) && m.ip < |m.memory| && m.memory[m.ip] == Encode(Move(src, dst))
    ensures Step(m, fpu).Next?
    ensures RegValue(Step(m, fpu).m, dst) == RegValue(m, src)
    ensures forall q :: q != dst ==> RegValue(Step(m, fpu).m, q) == RegValue(m, q)
    ensures Step(m, fpu).m.ip == m.ip + 1
    ensures Step(m, fpu).m == SetReg(m, dst, RegValue(m, src)).(ip := m.ip + 1)
  {
    DecodeEncode(Move(src, dst));
  }

  // ------------------------------------------------------------ syscalls

  /** SYSCALL with code 2 ends the run at once and `execute` returns the old `dx`. */
  lemma TerminateReturnsDx(m: Machine, fpu: FloatUnit, fuel: nat)
    requires Sized(m) && m.ip < |m.memory| && m.memory[m.ip] == SYSCALL && m.ax == 2
    requires fuel > 0
    ensures Run(m, fpu, fuel).Halted?
    ensures Run(m, fpu, fuel).m.ax == m.dx
    ensures Run(m, fpu, fuel).m.(ax := m.ax, ip := m.ip) == m
  {
    DecodeEncode(Syscall);
  }

  /** SYSCALL with a code other than 0, 1 or 2 aborts. */
  lemma UnknownSyscallAborts(m: Machine, fpu: FloatUnit)
    requires Sized(m) && m.ip < |m.memory| && m.memory[m.ip] == SYSCALL && m.ax > 2
    ensures Step(m, fpu) == Trap(UnknownSyscall(m.ax))
  {
    DecodeEncode(Syscall);
  }

  /** Printing the words an emitted string occupies gives back that string. */
  lemma {:induction false} WriteCharsOfEmittedString(memory: seq<Word>, address: Word, s: string)
    requires |memory| < WORD_MAX
    requires address + |s| <= |memory|
    requires memory[address..address + |s|] == ImageBuilder.StrWords(s)
    ensures WriteChars(memory, address, |s|) == Ok(s)
    decreases |s|
  {
    if |s| > 0 {
      var w := ImageBuilder.StrWords(s);
      assert memory[address] == w[0];
      IntoCharOfCharCode(s[0]);
      assert memory[address + 1..address + |s|] == ImageBuilder.StrWords(s[1..]) by {
        forall k | 0 <= k < |s| - 1
          ensures memory[address + 1 + k] == ImageBuilder.StrWords(s[1..])[k]
        {
          assert memory[address + 1 + k] == w[k + 1];
        }
      }
      WriteCharsOfEmittedString(memory, address + 1, s[1..]);
      assert [s[0]] + s[1..] == s;
    }
  }

  /** SYSCALL 0 aborts when a word in the range it prints is not a character (or lies outside memory). */
  lemma WriteSyscallNeedsChars(m: Machine, fpu: FloatUnit, k: int)
    requires Sized(m) && m.ip < |m.memory| && m.memory[m.ip] == SYSCALL && m.ax == 0
    requires m.dx <= k < m.dx + m.cx && !Printable(m.memory, k)
    ensures Step(m, fpu).Trap?
  {
    DecodeEncode(Syscall);
  }

  /** SYSCALL 0 over an emitted string prints it, moves `dx` past it and zeroes `cx`. */
  lemma WriteSyscallPrintsString(m: Machine, fpu: FloatUnit, s: string)
    requires Sized(m) && m.ip < |m.memory| && m.memory[m.ip] == SYSCALL && m.ax == 0
    requires m.cx == |s| && m.dx + |s| <= |m.memory|
    requires m.memory[m.dx..m.dx + |s|] == ImageBuilder.StrWords(s)
    ensures Step(m, fpu).Next?
    ensures Step(m, fpu).m == m.(output := m.output + s, dx := m.dx + |s|, cx := 0, ip := m.ip + 1)
  {
    DecodeEncode(Syscall);
    WriteCharsOfEmittedString(m.memory, m.dx, s);
  }

  // ------------------------------------------------------------ whole programs

  /** Loads 2 and 3, adds them, moves the sum to `dx` and terminates. */
  const ADD_PROGRAM: seq<Word> :=
    [MOVE_OP_TO_AX, 2, MOVE_OP_TO_BX, 3, ADD, MOVE_AX_TO_DX, MOVE_OP_TO_AX, 2, SYSCALL]

  /** A machine whose memory holds `program` followed by zeros, with every register cleared. */
  function Boot(program: seq<Word>, size: nat): (m: Machine)
    requires |program| <= size < WORD_MAX
    ensures Sized(m) && |m.memory| == size && m.memory[..|program|] == program
    ensures forall k :: |program| <= k < size ==> m.memory[k] == 0
  {
    Machine(program + seq(size - |program|, _ => 0), 0, 0, 0, 0, 0, 0, 0, 0, [])
  }

  /** One step of the loop: a successful step hands the rest of the fuel to the next state. */
  lemma RunUnfolds(m: Machine, fpu: FloatUnit, fuel: nat, m': Machine)
    requires Sized(m) && m.ip < |m.memory| && fuel > 0
    requires Step(m, fpu) == Next(m')
    ensures Sized(m')
    ensures Run(m, fpu, fuel) == Run(m', fpu, fuel - 1)
  {
  }

  /** The machine before each instruction of the addition program. */
  function AddTrace(k: nat): (m: Machine)
    requires k <= 5
    ensures Sized(m) && |m.memory| == 16
  {
    var m0 := StackReset(Boot(ADD_PROGRAM, 16));
    if k == 0 then m0
    else if k == 1 then m0.(ax := 2, ip := 2)
    else if k == 2 then m0.(ax := 2, bx := 3, ip := 4)
    else if k == 3 then m0.(ax := 5, bx := 3, ip := 5)
    else if k == 4 then m0.(ax := 5, bx := 3, dx := 5, ip := 6)
    else m0.(ax := 2, bx := 3, dx := 5, ip := 8)
  }

  /** Each instruction of the addition program takes the trace one state further. */
  lemma AddTraceSteps(k: nat, fpu: FloatUnit)
    requires k < 5
    ensures AddTrace(k).ip < 16
    ensures Step(AddTrace(k), fpu) == Next(AddTrace(k + 1))
  {
    if k == 2 {
      var m := AddTrace(k);
      assert m.memory[m.ip] == ADD;
      BinaryTouchesOnlyAx(m, fpu, Add);
    } else if k == 3 {
      var m := AddTrace(k);
      assert m.memory[m.ip] == MOVE_AX_TO_DX;
      MoveCopiesRegister(m, fpu, AX, DX);
    } else {
      AddTraceLoads(k, fpu);
    }
  }

  /** The three immediate loads of the addition program. */
  lemma AddTraceLoads(k: nat, fpu: FloatUnit)
    requires k == 0 || k == 1 || k == 4
    ensures AddTrace(k).ip < 16
    ensures Step(AddTrace(k), fpu) == Next(AddTrace(k + 1))
  {
    var m := AddTrace(k);
    var r := if k == 1 then BX else AX;
    assert m.memory[m.ip] == Encode(MoveImm(r)) && m.memory[m.ip + 1] == if k == 1 then 3 else 2;
    MoveImmLoadsOperand(m, fpu, r);
  }

  /** Running the addition program in sixteen words returns five. */
  lemma AddProgramReturnsFive(fpu: FloatUnit)
    ensures Execute(Boot(ADD_PROGRAM, 16), fpu, 6).Halted?
    ensures Execute(Boot(ADD_PROGRAM, 16), fpu, 6).m.ax == 5
  {
    for k := 0 to 5
      invariant Execute(Boot(ADD_PROGRAM, 16), fpu, 6) == Run(AddTrace(k), fpu, 6 - k)
    {
      AddTraceSteps(k, fpu);
      RunUnfolds(AddTrace(k), fpu, 6 - k, AddTrace(k + 1));
    }
    var m := AddTrace(5);
    assert m.memory[8] == SYSCALL;
    TerminateReturnsDx(m, fpu, 1);
  }
}
