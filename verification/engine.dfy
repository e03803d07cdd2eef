/**
 * The virtual machine itself: an object owning a fixed array of words and
 * the eight pointer and general registers, updated in place by
 * `load_image` and by the fetch/decode/execute loop of `execute`. The loop,
 * step, syscall and register methods are proved to follow the functions of
 * module Semantics; `WithMemory`, `New` and `LoadImage` are specified by the
 * fields they set.
 */
module Engine {
  import opened Words
  import opened Wrappers
  import opened OpCodes
  import opened Chars
  import opened Semantics
  import ImageBuilder

  /** The byte size `new` asks for: 0x10000 bytes, that is 0x2000 words. */
  const DEFAULT_MEM_SIZE: Word := 0x10000

  /** How a call of `execute` ends: the value it returns, the panic that ends the process, a read of standard input, or the step budget spent. */
  datatype Exit = Returned(value: Word) | Panicked(fault: Fault) | ReadsLine | StepsExhausted

  /** How one pass through the loop body ends. */
  datatype Progress = Stepped | Faulted(fault: Fault) | Blocked

  /** The exit a run outcome is reported as. */
  function ExitOf(o: Outcome): Exit
  {
    match o
    case Halted(m) => Returned(m.ax)
    case Aborted(f) => Panicked(f)
    case AwaitingInput(_) => ReadsLine
    case OutOfFuel(_) => StepsExhausted
  }

  /** `after` and `p` are what the step function says one pass from `before` gives. */
  predicate Follows(before: Machine, r: StepResult, p: Progress, after: Machine)
  {
    match r
    case Next(m') => p == Stepped && after == m'
    case Trap(f) => p == Faulted(f)
    case NeedsInput => p == Blocked && after == before
  }

  class VirtualMachine {
    const maxAddress: Word
    const memory: array<Word>
    var ip: Word
    var sp: Word
    var fp: Word
    var lp: Word
    var ax: Word
    var bx: Word
    var cx: Word
    var dx: Word
    /** The text written to standard output so far. */
    var output: string

    ghost predicate Valid()
      reads this
    {
      memory.Length == maxAddress && maxAddress < WORD_MAX
    }

    /** The snapshot the semantic functions work on. */
    function State(): (m: Machine)
      reads this, memory
      ensures |m.memory| == memory.Length
    {
      Machine(memory[..], ip, sp, fp, lp, ax, bx, cx, dx, output)
    }

    /** `max_address` is the byte size in whole words; memory and registers start at zero. */
    constructor WithMemory(memorySize: Word)
      ensures Valid() && fresh(memory)
      ensures maxAddress == memorySize / WORD_BYTES
      ensures State() == Machine(seq(memorySize / WORD_BYTES, _ => 0), 0, 0, 0, 0, 0, 0, 0, 0, [])
    {
      maxAddress := memorySize / WORD_BYTES;
      memory := new Word[memorySize / WORD_BYTES](_ => 0);
      ip, sp, fp, lp := 0, 0, 0, 0;
      ax, bx, cx, dx := 0, 0, 0, 0;
      output := [];
    }

    /** `new`: a machine of the default size. */
    constructor New()
      ensures Valid() && fresh(memory)
      ensures maxAddress == 0x2000
      ensures State() == Machine(seq(0x2000, _ => 0), 0, 0, 0, 0, 0, 0, 0, 0, [])
    {
      maxAddress := DEFAULT_MEM_SIZE / WORD_BYTES;
      memory := new Word[DEFAULT_MEM_SIZE / WORD_BYTES](_ => 0);
      ip, sp, fp, lp := 0, 0, 0, 0;
      ax, bx, cx, dx := 0, 0, 0, 0;
      output := [];
    }

    /**
     * Copies the image's words to the start of memory and jumps to its entry
     * point; an image longer than memory is refused and nothing changes.
     */
    method LoadImage(image: ImageBuilder.Image) returns (r: Result<(), string>)
      requires Valid() && image.Valid()
      modifies memory, this`ip
      ensures Valid()
      ensures |image.image| > maxAddress ==> r == Err("image's size too large") && unchanged(this) && unchanged(memory)
      ensures |image.image| <= maxAddress ==> r == Ok(())
      ensures |image.image| <= maxAddress ==> memory[..] == image.image + old(memory[|image.image|..])
      ensures |image.image| <= maxAddress ==> ip == image.entryPoint
    {
      if |image.image| > maxAddress {
        return Err("image's size too large");
      }
      var words := image.image;
      forall k | 0 <= k < |words| {
        memory[k] := words[k];
      }
      ip := image.entryPoint;
      return Ok(());
    }

    function Register(r: Reg): (v: Word)
      reads this
      ensures v == RegValue(State(), r)
    {
      match r
      case AX => ax
      case BX => bx
      case CX => cx
      case DX => dx
    }

    method SetRegister(r: Reg, v: Word)
      modifies this`ax, this`bx, this`cx, this`dx
      ensures State() == SetReg(old(State()), r, v)
    {
      match r
      case AX => ax := v;
      case BX => bx := v;
      case CX => cx := v;
      case DX => dx := v;
    }

    /** DIV: the remainder goes to `bx` first, and `ax` is then divided by that new `bx`; either divisor being zero aborts. */
    method Divide() returns (fault: Option<Fault>)
      modifies this`ax, this`bx
      ensures fault.Some? <==> BinaryResult(Div, old(ax), old(bx)).Err?
      ensures fault.Some? ==> BinaryResult(Div, old(ax), old(bx)) == Err(fault.value)
      ensures fault.None? ==> (ax, bx) == BinaryResult(Div, old(ax), old(bx)).value
    {
      if bx == 0 {
        return Some(DivisionByZero);
      }
      bx := ax % bx;
      if bx == 0 {
        return Some(DivisionByZero);
      }
      ax := ax / bx;
      return None;
    }

    /** The integer binary operations on `ax` and `bx`. */
    method Arithmetic(b: BinaryOp) returns (fault: Option<Fault>)
      modifies this`ax, this`bx
      ensures fault.Some? <==> BinaryResult(b, old(ax), old(bx)).Err?
      ensures fault.Some? ==> BinaryResult(b, old(ax), old(bx)) == Err(fault.value)
      ensures fault.None? ==> (ax, bx) == BinaryResult(b, old(ax), old(bx)).value
    {
      fault := None;
      match b {
        case Add => ax := WrappingAdd(ax, bx);
        case Sub => ax := WrappingSub(ax, bx);
        case Mul => ax := WrappingMul(ax, bx);
        case Div => fault := Divide();
        case And => ax := BitAnd(ax, bx);
        case Or => ax := BitOr(ax, bx);
        case Xor => ax := BitXor(ax, bx);
        case Shl =>
          if bx >= 64 {
            return Some(ArithmeticOverflow);
          }
          ax := ShiftLeft(ax, bx);
        case Shr =>
          if bx >= 64 {
            return Some(ArithmeticOverflow);
          }
          ax := ShiftRight(ax, bx);
      }
    }

    /**
     * One pass through the body of the `execute` loop: fetch the word at
     * `ip`, dispatch on it, and advance `ip` unless the instruction
     * transferred control itself.
     */
    method StepInPlace(fpu: FloatUnit) returns (p: Progress)
      requires Valid() && ip < maxAddress
      modifies this, memory
      ensures Valid()
      ensures Follows(old(State()), Step(old(State()), fpu), p, State())
    {
      var op := memory[ip];
      match Decode(op) {
        case None =>
          return Faulted(UnknownOpcode(op));
        case Some(i) =>
          if i.Push? || i.Pop? || i.Call? || i.Ret? {
            p := StackInPlace(i, fpu);
          } else if i.Jump? || i.Syscall? {
            p := ControlInPlace(i, fpu);
          } else {
            p := DataInPlace(i, fpu);
          }
      }
    }

    /** PUSH, POP, CALL and RET: the instructions that move `sp` and touch memory. */
    method StackInPlace(i: Instr, fpu: FloatUnit) returns (p: Progress)
      requires Valid() && ip < maxAddress
      requires i.Push? || i.Pop? || i.Call? || i.Ret?
      modifies this, memory
      ensures Valid()
      ensures Follows(old(State()), Exec(old(State()), i, fpu), p, State())
    {
      match i {
        case Push =>
          if sp == 0 {
            return Faulted(ArithmeticOverflow);
          }
          sp := sp - 1;
          if sp >= maxAddress {
            return Faulted(IndexOutOfBounds(sp));
          }
          memory[sp] := cx;
          ip := ip + 1;
        case Pop =>
          if sp >= maxAddress {
            return Faulted(IndexOutOfBounds(sp));
          }
          cx := memory[sp];
          sp := sp + 1;
          ip := ip + 1;
        case Call =>
          if sp == 0 {
            return Faulted(ArithmeticOverflow);
          }
          sp := sp - 1;
          if sp >= maxAddress {
            return Faulted(IndexOutOfBounds(sp));
          }
          memory[sp] := ip + 1;
          ip := dx;
        case Ret =>
          if sp >= maxAddress {
            return Faulted(IndexOutOfBounds(sp));
          }
          dx := memory[sp];
          sp := sp + 1;
          ip := dx;
      }
      return Stepped;
    }

    /** The jumps and SYSCALL. */
    method ControlInPlace(i: Instr, fpu: FloatUnit) returns (p: Progress)
      requires Valid() && ip < maxAddress
      requires i.Jump? || i.Syscall?
      modifies this
      ensures Valid()
      ensures Follows(old(State()), Exec(old(State()), i, fpu), p, State())
    {
      match i {
        case Jump(c) =>
          if Taken(c, ax, bx) {
            ip := dx;
          } else {
            ip := ip + 1;
          }
          return Stepped;
        case Syscall =>
          p := Syscall();
          if p.Stepped? {
            ip := ip + 1;
          }
      }
    }

    /** The register instructions: arithmetic, the double unit, and the moves. */
    method DataInPlace(i: Instr, fpu: FloatUnit) returns (p: Progress)
      requires Valid() && ip < maxAddress
      requires i.Unary? || i.Binary? || i.Float? || i.MoveImm? || i.Move?
      modifies this
      ensures Valid()
      ensures Follows(old(State()), Exec(old(State()), i, fpu), p, State())
    {
      match i {
        case Unary(u) =>
          ax := UnaryResult(u, ax);
        case Binary(b) =>
          var fault := Arithmetic(b);
          if fault.Some? {
            return Faulted(fault.value);
          }
        case Float(f) =>
          ax := fpu(f, ax, bx);
        case MoveImm(r) =>
          ip := ip + 1;
          if ip >= maxAddress {
            return Faulted(IndexOutOfBounds(ip));
          }
          SetRegister(r, memory[ip]);
        case Move(src, dst) =>
          SetRegister(dst, Register(src));
      }
      ip := ip + 1;
      return Stepped;
    }

    /**
     * `execute`: put the stack at the top of memory (`lp = sp - 1` overflows
     * on an empty memory), then step while `ip` is inside memory and return
     * `ax`. `execute`'s loop has no bound; here it runs for at most
     * `fuel` steps.
     */
    method Execute(fpu: FloatUnit, fuel: nat) returns (e: Exit)
      requires Valid()
      modifies this, memory
      ensures Valid()
      ensures e == ExitOf(Semantics.Execute(old(State()), fpu, fuel))
      ensures !e.Panicked? ==> State() == Semantics.Execute(old(State()), fpu, fuel).m
    {
      sp := maxAddress;
      fp := sp;
      if sp == 0 {
        return Panicked(ArithmeticOverflow);
      }
      lp := sp - 1;
      assert State() == StackReset(old(State()));
      e := Loop(fpu, fuel);
    }

    /** One pass of the loop body, stated as what it means for the outcome of the run. */
    method Pass(fpu: FloatUnit, budget: nat, ghost outcome: Outcome) returns (p: Progress, rest: nat)
      requires Valid() && ip < maxAddress && budget > 0
      requires Run(State(), fpu, budget) == outcome
      modifies this, memory
      ensures Valid() && rest < budget
      ensures p.Stepped? ==> Run(State(), fpu, rest) == outcome
      ensures p.Faulted? ==> outcome == Aborted(p.fault)
      ensures p.Blocked? ==> outcome == AwaitingInput(State())
    {
      ghost var before := State();
      p := StepInPlace(fpu);
      rest := budget - 1;
      LoopPass(before, fpu, budget - 1, p, State(), outcome);
    }

    /** The `while ip < max_address` loop of `execute`, for at most `fuel` passes. */
    method Loop(fpu: FloatUnit, fuel: nat) returns (e: Exit)
      requires Valid()
      modifies this, memory
      ensures Valid()
      ensures e == ExitOf(Run(old(State()), fpu, fuel))
      ensures !e.Panicked? ==> State() == Run(old(State()), fpu, fuel).m
    {
      ghost var outcome := Run(State(), fpu, fuel);
      var budget := fuel;
      var p := Stepped;
      while ip < maxAddress && budget > 0 && p.Stepped?
        invariant Valid()
        invariant p.Stepped? ==> Run(State(), fpu, budget) == outcome
        invariant p.Faulted? ==> outcome == Aborted(p.fault)
        invariant p.Blocked? ==> outcome == AwaitingInput(State())
        decreases budget
      {
        p, budget := Pass(fpu, budget, outcome);
      }
      if p.Faulted? {
        e := Panicked(p.fault);
      } else if p.Blocked? {
        e := ReadsLine;
      } else if ip < maxAddress {
        e := StepsExhausted;
      } else {
        e := Returned(ax);
      }
    }

    /**
     * The syscall dispatcher: code 0 prints, code 1 reads a line (not
     * modelled), code 2 makes `dx` the result and moves `ip` to the end of
     * memory; any other code aborts.
     */
    method Syscall() returns (p: Progress)
      requires Valid() && ip < maxAddress
      modifies this
      ensures Valid() && ip <= maxAddress
      ensures Follows(old(State()), SyscallStep(old(State())), p, if p.Blocked? then State() else State().(ip := State().ip + 1))
    {
      if ax == 0 {
        var fault := WriteString();
        if fault.Some? {
          return Faulted(fault.value);
        }
        return Stepped;
      } else if ax == 1 {
        return Blocked;
      } else if ax == 2 {
        ax := dx;
        ip := maxAddress;
        return Stepped;
      } else {
        return Faulted(UnknownSyscall(ax));
      }
    }

    /** Syscall 0: print `cx` characters from `dx` on, one at a time, advancing `dx` and counting `cx` down. */
    method WriteString() returns (fault: Option<Fault>)
      requires Valid()
      modifies this`output, this`dx, this`cx
      ensures fault.Some? <==> WriteChars(memory[..], old(dx), old(cx)).Err?
      ensures fault.Some? ==> WriteChars(memory[..], old(dx), old(cx)) == Err(fault.value)
      ensures fault.None? ==> output == old(output) + WriteChars(memory[..], old(dx), old(cx)).value
      ensures fault.None? ==> dx == old(dx) + old(cx) && cx == 0
    {
      ghost var printed: string := [];
      ThenNothing(WriteChars(memory[..], dx, cx));
      while cx > 0
        invariant dx as int == old(dx) + |printed| && cx as int + |printed| == old(cx)
        invariant output == old(output) + printed
        invariant WriteChars(memory[..], old(dx), old(cx)) == Then(printed, WriteChars(memory[..], dx, cx))
        decreases cx
      {
        if dx >= maxAddress {
          return Some(IndexOutOfBounds(dx));
        }
        var c := IntoChar(memory[dx]);
        if c.None? {
          return Some(NotAChar(memory[dx]));
        }
        var nextDx, nextCx := dx + 1, cx - 1;
        ThenOneMore(printed, memory[..], dx, cx, nextDx, nextCx);
        output := output + [c.value];
        printed := printed + [c.value];
        dx, cx := nextDx, nextCx;
      }
      ThenNothing(WriteChars(memory[..], dx, cx));
      return None;
    }
  }

  /** The text printed so far followed by what the rest of the loop prints. */
  function Then(printed: string, rest: Result<string, Fault>): Result<string, Fault>
  {
    match rest
    case Err(f) => Err(f)
    case Ok(text) => Ok(printed + text)
  }

  lemma ThenNothing(r: Result<string, Fault>)
    ensures Then([], r) == r
  {
    if r.Ok? {
      assert [] + r.value == r.value;
    }
  }

  /** Printing one more character moves it from what is left to print to what is printed. */
  lemma ThenOneMore(printed: string, memory: seq<Word>, address: Word, count: nat, nextAddress: Word, nextCount: nat)
    requires |memory| < WORD_MAX && address < |memory| && count > 0
    requires nextAddress == address + 1 && nextCount == count - 1
    requires IntoChar(memory[address]).Some?
    ensures Then(printed, WriteChars(memory, address, count))
         == Then(printed + [IntoChar(memory[address]).value], WriteChars(memory, nextAddress, nextCount))
  {
    var rest := WriteChars(memory, nextAddress, nextCount);
    if rest.Ok? {
      var c := IntoChar(memory[address]).value;
      assert printed + ([c] + rest.value) == (printed + [c]) + rest.value;
    }
  }

  /** What one pass of the loop body means for the rest of the run. */
  lemma LoopPass(before: Machine, fpu: FloatUnit, rest: nat, p: Progress, after: Machine, outcome: Outcome)
    requires Sized(before) && before.ip < |before.memory|
    requires Follows(before, Step(before, fpu), p, after)
    requires Run(before, fpu, rest + 1) == outcome
    ensures p.Stepped? ==> Sized(after) && Run(after, fpu, rest) == outcome
    ensures p.Faulted? ==> outcome == Aborted(p.fault)
    ensures p.Blocked? ==> outcome == AwaitingInput(after)
  {
  }
}
