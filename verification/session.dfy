/**
 * The three pieces used together: a program assembled with the image
 * builder, loaded into a fresh machine and executed.
 */
module Session {
  import opened Words
  import opened OpCodes
  import opened Semantics
  import opened ImageBuilder
  import opened Engine
  import opened Properties

  /** Assembles the addition program with the image builder, one emit per instruction. */
  method AssembleAddProgram() returns (img: Image)
    ensures fresh(img) && img.Valid()
    ensures img.image == ADD_PROGRAM && img.entryPoint == 0
  {
    img := new Image();
    ghost var emitted: seq<Word> := [];
    var at := img.EmitOpcodeWithOperand(MOVE_OP_TO_AX, 2);
    PatchAtEnd(emitted, [MOVE_OP_TO_AX, 2]);
    emitted := emitted + [MOVE_OP_TO_AX, 2];
    at := img.EmitOpcodeWithOperand(MOVE_OP_TO_BX, 3);
    PatchAtEnd(emitted, [MOVE_OP_TO_BX, 3]);
    emitted := emitted + [MOVE_OP_TO_BX, 3];
    at := img.EmitOpcode(ADD);
    PatchAtEnd(emitted, [ADD]);
    emitted := emitted + [ADD];
    at := img.EmitOpcode(MOVE_AX_TO_DX);
    PatchAtEnd(emitted, [MOVE_AX_TO_DX]);
    emitted := emitted + [MOVE_AX_TO_DX];
    at := img.EmitOpcodeWithOperand(MOVE_OP_TO_AX, 2);
    PatchAtEnd(emitted, [MOVE_OP_TO_AX, 2]);
    emitted := emitted + [MOVE_OP_TO_AX, 2];
    at := img.EmitOpcode(SYSCALL);
    PatchAtEnd(emitted, [SYSCALL]);
    emitted := emitted + [SYSCALL];
    AddProgramPieces();
  }

  /** The addition program is its six instructions laid end to end. */
  lemma AddProgramPieces()
    ensures ADD_PROGRAM
         == [MOVE_OP_TO_AX, 2] + [MOVE_OP_TO_BX, 3] + [ADD] + [MOVE_AX_TO_DX] + [MOVE_OP_TO_AX, 2] + [SYSCALL]
  { }

  /** Assembles the addition program, loads it into a 128-byte machine and runs it: it returns five. */
  method AssembleLoadAndRun(fpu: FloatUnit) returns (e: Exit)
    ensures e == Returned(5)
  {
    var img := AssembleAddProgram();
    var vm := new VirtualMachine.WithMemory(128);
    var loaded := vm.LoadImage(img);
    assert vm.State() == Boot(ADD_PROGRAM, 16);
    e := vm.Execute(fpu, 6);
    AddProgramReturnsFive(fpu);
  }
}
