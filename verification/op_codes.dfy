/**
 * The instruction catalog: one numeric code per instruction, the two masks
 * declared beside them, and the decoding of a word into the instruction the
 * engine's dispatch selects for it.
 */
module OpCodes {
  import opened Words
  import opened Wrappers

  const CODE_MASK: Word := 0x0FF  // 0b000011111111
  const TYPE_MASK: Word := 0xE00  // 0b111000000000

  // PUSH copies `cx` onto the stack and POP takes the top of the stack into `cx`
  const PUSH: Word := 1
  const POP: Word := 2

  // integer, float and bitwise arithmetic on ax (and bx)
  const INC: Word := 3
  const DEC: Word := 4
  const NEG: Word := 5
  const ADD: Word := 6
  const SUB: Word := 7
  const MUL: Word := 8
  const DIV: Word := 9
  const FNEG: Word := 10
  const FADD: Word := 11
  const FSUB: Word := 12
  const FMUL: Word := 13
  const FDIV: Word := 14
  const AND: Word := 15
  const OR: Word := 16
  const XOR: Word := 17
  const NOT: Word := 18
  const SHL: Word := 19
  const SHR: Word := 20

  // jumps to the address in dx
  const JMP: Word := 21
  const JE: Word := 22
  const JNE: Word := 23
  const JG: Word := 24
  const JGE: Word := 25
  const JL: Word := 26
  const JLE: Word := 27
  const JA: Word := 28
  const JAE: Word := 29
  const JB: Word := 30
  const JBE: Word := 31
  const FJG: Word := 32
  const FJGE: Word := 33
  const FJL: Word := 34
  const FJLE: Word := 35

  const CALL: Word := 36
  const RET: Word := 37
  const SYSCALL: Word := 38

  // moves: an immediate operand word, or register to register
  const MOVE_OP_TO_AX: Word := 39
  const MOVE_OP_TO_BX: Word := 40
  const MOVE_OP_TO_CX: Word := 41
  const MOVE_OP_TO_DX: Word := 42
  const MOVE_BX_TO_AX: Word := 43
  const MOVE_CX_TO_AX: Word := 44
  const MOVE_DX_TO_AX: Word := 45
  const MOVE_AX_TO_BX: Word := 46
  const MOVE_CX_TO_BX: Word := 47
  const MOVE_DX_TO_BX: Word := 48
  const MOVE_AX_TO_CX: Word := 49
  const MOVE_BX_TO_CX: Word := 50
  const MOVE_DX_TO_CX: Word := 51
  const MOVE_AX_TO_DX: Word := 52
  const MOVE_BX_TO_DX: Word := 53
  const MOVE_CX_TO_DX: Word := 54

  // conversions between integers and doubles on ax
  const CWTOR: Word := 55
  const CSWTOR: Word := 56
  const CRTOW: Word := 57
  const CRTOSW: Word := 58

  // ax = memory[ax]; declared, never dispatched
  const DEREF: Word := 59

  const STACK_CODES: seq<Word> := [PUSH, POP]
  const ARITHMETIC_CODES: seq<Word> := [
    INC, DEC, NEG, ADD, SUB, MUL, DIV, FNEG, FADD, FSUB, FMUL, FDIV,
    AND, OR, XOR, NOT, SHL, SHR
  ]
  const JUMP_CODES: seq<Word> := [
    JMP, JE, JNE, JG, JGE, JL, JLE, JA, JAE, JB, JBE, FJG, FJGE, FJL, FJLE
  ]
  const CONTROL_CODES: seq<Word> := [CALL, RET, SYSCALL]
  const MOVE_CODES: seq<Word> := [
    MOVE_OP_TO_AX, MOVE_OP_TO_BX, MOVE_OP_TO_CX, MOVE_OP_TO_DX,
    MOVE_BX_TO_AX, MOVE_CX_TO_AX, MOVE_DX_TO_AX,
    MOVE_AX_TO_BX, MOVE_CX_TO_BX, MOVE_DX_TO_BX,
    MOVE_AX_TO_CX, MOVE_BX_TO_CX, MOVE_DX_TO_CX,
    MOVE_AX_TO_DX, MOVE_BX_TO_DX, MOVE_CX_TO_DX
  ]
  const CAST_CODES: seq<Word> := [CWTOR, CSWTOR, CRTOW, CRTOSW]

  /** Every declared instruction code, in declaration order. */
  const CATALOG: seq<Word> :=
    STACK_CODES + ARITHMETIC_CODES + JUMP_CODES + CONTROL_CODES + MOVE_CODES + CAST_CODES + [DEREF]

  predicate IsOpCode(w: Word)
  {
    w in CATALOG
  }

  // ------------------------------------------------------------ instructions

  datatype Reg = AX | BX | CX | DX

  datatype UnaryOp = Inc | Dec | Neg | Not | FNeg

  datatype BinaryOp = Add | Sub | Mul | Div | And | Or | Xor | Shl | Shr

  /** The double arithmetic and the integer/double conversions. */
  datatype FloatOp = FAdd | FSub | FMul | FDiv | Cwtor | Cswtor | Crtow | Crtosw

  datatype Cond =
    | Always
    | Equal | NotEqual
    | Greater | GreaterEq | Less | LessEq
    | Above | AboveEq | Below | BelowEq
    | FGreater | FGreaterEq | FLess | FLessEq

  /** An instruction as the engine's dispatch distinguishes it. */
  datatype Instr =
    | Push | Pop
    | Unary(u: UnaryOp)
    | Binary(b: BinaryOp)
    | Float(f: FloatOp)
    | Jump(c: Cond)
    | Call | Ret | Syscall
    | MoveImm(dst: Reg)
    | Move(src: Reg, dst: Reg)

  /** A register-to-register move names two different registers. */
  predicate WellFormed(i: Instr)
  {
    i.Move? ==> i.src != i.dst
  }

  /** The number of words an instruction occupies: the four immediate loads carry one operand word. */
  function Size(i: Instr): nat
  {
    if i.MoveImm? then 2 else 1
  }

  function EncodeMove(src: Reg, dst: Reg): Word
    requires src != dst
  {
    match (src, dst)
    case (BX, AX) => MOVE_BX_TO_AX
    case (CX, AX) => MOVE_CX_TO_AX
    case (DX, AX) => MOVE_DX_TO_AX
    case (AX, BX) => MOVE_AX_TO_BX
    case (CX, BX) => MOVE_CX_TO_BX
    case (DX, BX) => MOVE_DX_TO_BX
    case (AX, CX) => MOVE_AX_TO_CX
    case (BX, CX) => MOVE_BX_TO_CX
    case (DX, CX) => MOVE_DX_TO_CX
    case (AX, DX) => MOVE_AX_TO_DX
    case (BX, DX) => MOVE_BX_TO_DX
    case (CX, DX) => MOVE_CX_TO_DX
  }

  /** The code an assembler emits for an instruction. */
  function Encode(i: Instr): (w: Word)
    requires WellFormed(i)
    ensures 1 <= w < DEREF
  {
    match i
    case Push => PUSH
    case Pop => POP
    case Unary(u) =>
      (match u
       case Inc => INC case Dec => DEC case Neg => NEG case Not => NOT case FNeg => FNEG)
    case Binary(b) =>
      (match b
       case Add => ADD case Sub => SUB case Mul => MUL case Div => DIV
       case And => AND case Or => OR case Xor => XOR case Shl => SHL case Shr => SHR)
    case Float(f) =>
      (match f
       case FAdd => FADD case FSub => FSUB case FMul => FMUL case FDiv => FDIV
       case Cwtor => CWTOR case Cswtor => CSWTOR case Crtow => CRTOW case Crtosw => CRTOSW)
    case Jump(c) =>
      (match c
       case Always => JMP case Equal => JE case NotEqual => JNE
       case Greater => JG case GreaterEq => JGE case Less => JL case LessEq => JLE
       case Above => JA case AboveEq => JAE case Below => JB case BelowEq => JBE
       case FGreater => FJG case FGreaterEq => FJGE case FLess => FJL case FLessEq => FJLE)
    case Call => CALL
    case Ret => RET
    case Syscall => SYSCALL
    case MoveImm(r) =>
      (match r
       case AX => MOVE_OP_TO_AX case BX => MOVE_OP_TO_BX
       case CX => MOVE_OP_TO_CX case DX => MOVE_OP_TO_DX)
    case Move(s, d) => EncodeMove(s, d)
  }

  /** The arm of the engine's dispatch a word selects; None is the fall-through that aborts. */
  function Decode(w: Word): (r: Option<Instr>)
    ensures r.Some? ==> WellFormed(r.value) && 1 <= w < DEREF
  {
    if w == PUSH then Some(Push)
    else if w == POP then Some(Pop)
    else if w == INC then Some(Unary(Inc))
    else if w == DEC then Some(Unary(Dec))
    else if w == NEG then Some(Unary(Neg))
    else if w == ADD then Some(Binary(Add))
    else if w == SUB then Some(Binary(Sub))
    else if w == MUL then Some(Binary(Mul))
    else if w == DIV then Some(Binary(Div))
    else if w == FNEG then Some(Unary(FNeg))
    else if w == FADD then Some(Float(FAdd))
    else if w == FSUB then Some(Float(FSub))
    else if w == FMUL then Some(Float(FMul))
    else if w == FDIV then Some(Float(FDiv))
    else if w == AND then Some(Binary(And))
    else if w == OR then Some(Binary(Or))
    else if w == XOR then Some(Binary(Xor))
    else if w == NOT then Some(Unary(Not))
    else if w == SHL then Some(Binary(Shl))
    else if w == SHR then Some(Binary(Shr))
    else if w == JMP then Some(Jump(Always))
    else if w == JE then Some(Jump(Equal))
    else if w == JNE then Some(Jump(NotEqual))
    else if w == JG then Some(Jump(Greater))
    else if w == JGE then Some(Jump(GreaterEq))
    else if w == JL then Some(Jump(Less))
    else if w == JLE then Some(Jump(LessEq))
    else if w == JA then Some(Jump(Above))
    else if w == JAE then Some(Jump(AboveEq))
    else if w == JB then Some(Jump(Below))
    else if w == JBE then Some(Jump(BelowEq))
    else if w == FJG then Some(Jump(FGreater))
    else if w == FJGE then Some(Jump(FGreaterEq))
    else if w == FJL then Some(Jump(FLess))
    else if w == FJLE then Some(Jump(FLessEq))
    else if w == CALL then Some(Call)
    else if w == RET then Some(Ret)
    else if w == SYSCALL then Some(Syscall)
    else if w == MOVE_OP_TO_AX then Some(MoveImm(AX))
    else if w == MOVE_OP_TO_BX then Some(MoveImm(BX))
    else if w == MOVE_OP_TO_CX then Some(MoveImm(CX))
    else if w == MOVE_OP_TO_DX then Some(MoveImm(DX))
    else if w == MOVE_BX_TO_AX then Some(Move(BX, AX))
    else if w == MOVE_CX_TO_AX then Some(Move(CX, AX))
    else if w == MOVE_DX_TO_AX then Some(Move(DX, AX))
    else if w == MOVE_AX_TO_BX then Some(Move(AX, BX))
    else if w == MOVE_CX_TO_BX then Some(Move(CX, BX))
    else if w == MOVE_DX_TO_BX then Some(Move(DX, BX))
    else if w == MOVE_AX_TO_CX then Some(Move(AX, CX))
    else if w == MOVE_BX_TO_CX then Some(Move(BX, CX))
    else if w == MOVE_DX_TO_CX then Some(Move(DX, CX))
    else if w == MOVE_AX_TO_DX then Some(Move(AX, DX))
    else if w == MOVE_BX_TO_DX then Some(Move(BX, DX))
    else if w == MOVE_CX_TO_DX then Some(Move(CX, DX))
    else if w == CWTOR then Some(Float(Cwtor))
    else if w == CSWTOR then Some(Float(Cswtor))
    else if w == CRTOW then Some(Float(Crtow))
    else if w == CRTOSW then Some(Float(Crtosw))
    else None
  }

  // ------------------------------------------------------- catalog lemmas

  /** `s` lists the codes `base`, `base + 1`, ... in order. */
  ghost predicate CountsUpFrom(s: seq<Word>, base: int)
  {
    forall i :: 0 <= i < |s| ==> s[i] == base + i
  }

  lemma CountsUpConcat(a: seq<Word>, b: seq<Word>, base: int)
    requires CountsUpFrom(a, base) && CountsUpFrom(b, base + |a|)
    ensures CountsUpFrom(a + b, base)
  {
  }

  lemma GroupsCountUp()
    ensures CountsUpFrom(STACK_CODES, PUSH)
    ensures CountsUpFrom(ARITHMETIC_CODES, INC)
    ensures CountsUpFrom(JUMP_CODES, JMP)
    ensures CountsUpFrom(CONTROL_CODES, CALL)
    ensures CountsUpFrom(MOVE_CODES, MOVE_OP_TO_AX)
    ensures CountsUpFrom(CAST_CODES, CWTOR)
  {
  }

  /** The catalog is exactly the codes 1, 2, ..., 59 in order. */
  lemma CatalogIsContiguous()
    ensures |CATALOG| == 59
    ensures CountsUpFrom(CATALOG, 1)
  {
    GroupsCountUp();
    var s := STACK_CODES;
    CountsUpConcat(s, ARITHMETIC_CODES, 1);
    s := s + ARITHMETIC_CODES;
    CountsUpConcat(s, JUMP_CODES, 1);
    s := s + JUMP_CODES;
    CountsUpConcat(s, CONTROL_CODES, 1);
    s := s + CONTROL_CODES;
    CountsUpConcat(s, MOVE_CODES, 1);
    s := s + MOVE_CODES;
    CountsUpConcat(s, CAST_CODES, 1);
    s := s + CAST_CODES;
    CountsUpConcat(s, [DEREF], 1);
  }

  /** No two instructions share a code. */
  lemma CatalogIsDistinct()
    ensures forall i, j :: 0 <= i < j < |CATALOG| ==> CATALOG[i] != CATALOG[j]
  {
    CatalogIsContiguous();
  }

  /** A word is an instruction code exactly when it lies in 1..59; in particular 0 is none. */
  lemma OpCodeRange(w: Word)
    ensures IsOpCode(w) <==> 1 <= w <= 59
  {
    CatalogIsContiguous();
    if 1 <= w <= 59 {
      assert CATALOG[w - 1] == w;
    }
  }

  /** A byte's value is kept by CODE_MASK and cleared by TYPE_MASK. */
  lemma SmallWordMasks(w: Word)
    requires w < 0x100
    ensures BitAnd(w, CODE_MASK) == w
    ensures BitAnd(w, TYPE_MASK) == 0
  {
    assert Pow2(8) == 0x100;
    AndLowOnes(w, 8, 64);
    LowBitsOfSmall(w, 8);
    assert LowBits(TYPE_MASK, 8) == 0;
    AndDisjointBits(w, TYPE_MASK, 8, 64);
  }

  /** Every instruction code lies within CODE_MASK and carries no TYPE_MASK bit. */
  lemma OpCodesWithinCodeMask(w: Word)
    requires IsOpCode(w)
    ensures BitAnd(w, CODE_MASK) == w
    ensures BitAnd(w, TYPE_MASK) == 0
  {
    OpCodeRange(w);
    SmallWordMasks(w);
  }

  /** The two masks select disjoint bits. */
  lemma MasksAreDisjoint()
    ensures BitAnd(CODE_MASK, TYPE_MASK) == 0
  {
    SmallWordMasks(CODE_MASK);
  }

  // ------------------------------------------------------- decoding lemmas

  /** Decoding the code of an instruction gives that instruction back. */
  lemma DecodeEncode(i: Instr)
    requires WellFormed(i)
    ensures Decode(Encode(i)) == Some(i)
  {
    match i
    case Jump(c) => DecodeEncodeJump(c);
    case Move(src, dst) => DecodeEncodeMove(src, dst);
    case Float(f) => DecodeEncodeFloat(f);
    case Binary(b) => DecodeEncodeBinary(b);
    case Unary(u) => DecodeEncodeUnary(u);
    case MoveImm(r) => DecodeEncodeMoveImm(r);
    case _ => DecodeEncodeNullary(i);
  }

  lemma DecodeEncodeNullary(i: Instr)
    requires i == Push || i == Pop || i == Call || i == Ret || i == Syscall
    ensures Decode(Encode(i)) == Some(i)
  {
  }

  lemma DecodeEncodeUnary(u: UnaryOp)
    ensures Decode(Encode(Unary(u))) == Some(Unary(u))
  {
  }

  lemma DecodeEncodeMoveImm(r: Reg)
    ensures Decode(Encode(MoveImm(r))) == Some(MoveImm(r))
  {
  }

  // DecodeEncode one constructor at a time, so that each proof stays small
  lemma DecodeEncodeJump(c: Cond)
    ensures Decode(Encode(Jump(c))) == Some(Jump(c))
  {
  }

  lemma DecodeEncodeMove(src: Reg, dst: Reg)
    requires src != dst
    ensures Decode(Encode(Move(src, dst))) == Some(Move(src, dst))
  {
  }

  lemma DecodeEncodeFloat(f: FloatOp)
    ensures Decode(Encode(Float(f))) == Some(Float(f))
  {
  }

  lemma DecodeEncodeBinary(b: BinaryOp)
    ensures Decode(Encode(Binary(b))) == Some(Binary(b))
  {
  }

  /** A word the dispatch recognises is the code of the instruction it selects. */
  lemma EncodeDecode(w: Word)
    requires Decode(w).Some?
    ensures WellFormed(Decode(w).value)
    ensures Encode(Decode(w).value) == w
  {
    DecodeDomain(w);
    if w <= DIV {
      EncodeDecodePushToDiv(w);
    } else if w <= SHR {
      EncodeDecodeFNegToShr(w);
    } else if w <= FJLE {
      EncodeDecodeJumps(w);
    } else if w <= MOVE_OP_TO_DX {
      EncodeDecodeCallToMoves(w);
    } else {
      EncodeDecodeRegisterMovesAndCasts(w);
    }
  }

  // EncodeDecode one block of the dispatch at a time, so that each proof stays small

  lemma EncodeDecodePushToDiv(w: Word)
    requires PUSH <= w <= DIV
    ensures Decode(w).Some? && WellFormed(Decode(w).value) && Encode(Decode(w).value) == w
  {
  }

  lemma EncodeDecodeFNegToShr(w: Word)
    requires FNEG <= w <= SHR
    ensures Decode(w).Some? && WellFormed(Decode(w).value) && Encode(Decode(w).value) == w
  {
  }

  lemma EncodeDecodeJumps(w: Word)
    requires JMP <= w <= FJLE
    ensures Decode(w).Some? && WellFormed(Decode(w).value) && Encode(Decode(w).value) == w
  {
  }

  lemma EncodeDecodeCallToMoves(w: Word)
    requires CALL <= w <= MOVE_OP_TO_DX
    ensures Decode(w).Some? && WellFormed(Decode(w).value) && Encode(Decode(w).value) == w
  {
  }

  lemma EncodeDecodeRegisterMovesAndCasts(w: Word)
    requires MOVE_BX_TO_AX <= w <= CRTOSW
    ensures Decode(w).Some? && WellFormed(Decode(w).value) && Encode(Decode(w).value) == w
  {
  }

  /** The dispatch recognises exactly the words 1 to 58. */
  lemma DecodeDomain(w: Word)
    ensures Decode(w).Some? <==> 1 <= w < DEREF
  {
    if w == 0 || w >= DEREF {
    } else if w <= SHR {
    } else if w <= FJLE {
    } else if w <= MOVE_OP_TO_DX {
    } else {
    }
  }

  /** The dispatch recognises every catalog code except DEREF, and nothing else. */
  lemma DecodeDefinedExactly(w: Word)
    ensures Decode(w).Some? <==> IsOpCode(w) && w != DEREF
  {
    OpCodeRange(w);
    DecodeDomain(w);
  }

  /** The operand-consuming instructions are exactly the contiguous block MOVE_OP_TO_AX..MOVE_OP_TO_DX. */
  lemma OperandConsumersAreContiguous(w: Word)
    ensures (Decode(w).Some? && Size(Decode(w).value) == 2) <==> MOVE_OP_TO_AX <= w <= MOVE_OP_TO_DX
  {
  }
}
