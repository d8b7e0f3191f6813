/**
 * The bytecode interpreter as a function of its state: operand decoding,
 * one handler per opcode, a single fetch-decode-execute step, and a run
 * bounded by a step count. A fault stands for the C code calling
 * exit(EXIT_FAILURE), or for a read or arithmetic operation whose result C
 * leaves undefined.
 *
 * The sizes STACK_SIZE, NREGS and MAX_INSTS and the opcode byte values come
 * from bci.h, which is not part of this model; they are the fields of a
 * Config.
 */
module BciSpec {

  import opened BciCodec

  /** The opcode byte values of bci.h. */
  datatype Opcodes = Opcodes(
    NOP: byte, PUSH: byte, POP: byte, LOAD: byte, STORE: byte,
    JMP: byte, JZ: byte, JNZ: byte,
    ADD: byte, SUB: byte, MUL: byte, DIV: byte,
    PRINT: byte, STOP: byte)

  function OpcodeList(op: Opcodes): seq<byte>
  {
    [op.NOP, op.PUSH, op.POP, op.LOAD, op.STORE, op.JMP, op.JZ, op.JNZ,
     op.ADD, op.SUB, op.MUL, op.DIV, op.PRINT, op.STOP]
  }

  /** The case labels of a C switch are pairwise different. */
  predicate DistinctOpcodes(op: Opcodes)
  {
    forall i, j :: 0 <= i < j < |OpcodeList(op)| ==> OpcodeList(op)[i] != OpcodeList(op)[j]
  }

  /** STACK_SIZE, NREGS, MAX_INSTS and the opcodes. */
  datatype Config = Config(stackSize: int, nregs: int, maxInsts: int, op: Opcodes)

  predicate ValidConfig(c: Config)
  {
    c.stackSize >= 1 && c.nregs >= 1 && c.maxInsts >= 1 && DistinctOpcodes(c.op)
  }

  /** vm_type: the stack, the registers, the instruction buffer, sp and ip; output is what PRINT wrote. */
  datatype State = State(stack: seq<int32>, sp: int, reg: seq<int32>, inst: seq<byte>, ip: int, output: seq<int32>)

  /**
   * The arrays have their declared sizes, and sp stays
   * within 0..STACK_SIZE - 1, since do_push refuses at STACK_SIZE - 1.
   */
  predicate Valid(c: Config, s: State)
  {
    && |s.stack| == c.stackSize && |s.reg| == c.nregs && |s.inst| == c.maxInsts
    && 0 <= s.sp <= c.stackSize - 1
    && 0 <= s.ip
  }

  /** Why the run ended with exit(EXIT_FAILURE), or with behaviour C leaves undefined. */
  datatype Error =
    | StackOverflow
    | StackUnderflow
    | InvalidRegister(index: int)
    | InvalidInstructionIndex(index: int)
    | TooFewOperands(needed: int)
    | FetchOutsideProgram(offset: int)
    | ReadBelowStack
    | IntOverflow
    | DivisionByZero

  datatype Result<T> = Ok(value: T) | Fail(error: Error)

  /** init_vm: everything zero. */
  function InitState(c: Config): (s: State)
    requires c.stackSize >= 1 && c.nregs >= 0 && c.maxInsts >= 0
    ensures Valid(c, s)
    ensures s.sp == 0 && s.ip == 0 && s.output == []
    ensures forall i :: 0 <= i < |s.stack| ==> s.stack[i] == 0
    ensures forall i :: 0 <= i < |s.reg| ==> s.reg[i] == 0
    ensures forall i :: 0 <= i < |s.inst| ==> s.inst[i] == 0
  {
    State(seq(c.stackSize, _ => 0 as int32), 0, seq(c.nregs, _ => 0 as int32), seq(c.maxInsts, _ => 0 as byte), 0, [])
  }

  /**
   * read_n_byte_integer: the n bytes at ip, low-order first, and ip moved
   * past them. The bytes fill the low-order end of an int that starts at 0,
   * so 1 and 2 bytes give an unsigned value and 4 bytes a two's complement
   * one. Reading past the instruction buffer is a fault.
   */
  function ReadInteger(c: Config, s: State, n: int): (r: Result<(int32, State)>)
    requires Valid(c, s) && (n == 1 || n == 2 || n == 4)
    ensures r.Fail? <==> s.ip + n > c.maxInsts
    ensures r.Ok? ==> r.value.1 == s.(ip := s.ip + n)
    ensures r.Ok? && n < 4 ==> r.value.0 as int == LittleEndian(s.inst[s.ip..s.ip + n])
    ensures r.Ok? && n == 4 ==> Unsigned32(r.value.0 as int) == LittleEndian(s.inst[s.ip..s.ip + n])
  {
    if s.ip + n > c.maxInsts then
      Fail(FetchOutsideProgram(if s.ip > c.maxInsts then s.ip else c.maxInsts))
    else
      var u := LittleEndian(s.inst[s.ip..s.ip + n]);
      assert Pow256(n) <= 0x1_0000_0000;
      TwosComplement(u, 0);
      Ok(((if n == 4 then Signed32(u) else u) as int32, s.(ip := s.ip + n)))
  }

  // ---------------------------------------------------------------------
  // The handlers, each checking in the order the C code does

  function Top(s: State): int32
    requires 1 <= s.sp <= |s.stack|
  {
    s.stack[s.sp - 1]
  }

  function Second(s: State): int32
    requires 2 <= s.sp <= |s.stack|
  {
    s.stack[s.sp - 2]
  }

  /** do_push: refuse when sp >= STACK_SIZE - 1, else store at sp and move sp up. */
  function DoPush(c: Config, s: State, n: int32): (r: Result<State>)
    requires Valid(c, s)
    ensures r.Fail? <==> s.sp >= c.stackSize - 1
    ensures r.Fail? ==> r.error == StackOverflow
    ensures r.Ok? ==> Valid(c, r.value) && r.value.sp == s.sp + 1 && Top(r.value) == n
    ensures r.Ok? ==> r.value == s.(stack := s.stack[s.sp := n], sp := s.sp + 1)
  {
    if s.sp >= c.stackSize - 1 then Fail(StackOverflow)
    else Ok(s.(stack := s.stack[s.sp := n], sp := s.sp + 1))
  }

  /** do_pop: refuse on an empty stack, else only move sp down. */
  function DoPop(c: Config, s: State): (r: Result<State>)
    requires Valid(c, s)
    ensures r.Fail? <==> s.sp == 0
    ensures r.Fail? ==> r.error == StackUnderflow
    ensures r.Ok? ==> Valid(c, r.value) && r.value.sp == s.sp - 1
    ensures r.Ok? ==> r.value == s.(sp := s.sp - 1)
  {
    if s.sp <= 0 then Fail(StackUnderflow)
    else Ok(s.(sp := s.sp - 1))
  }

  /** check_registry_index. */
  predicate RegistryIndexOk(c: Config, n: int)
  {
    0 <= n < c.nregs
  }

  /** check_instruction_index. */
  predicate InstructionIndexOk(c: Config, n: int)
  {
    0 <= n < c.maxInsts
  }

  /** do_load: check the register index, then push the register. */
  function DoLoad(c: Config, s: State, n: int): (r: Result<State>)
    requires Valid(c, s)
    ensures r.Fail? <==> !RegistryIndexOk(c, n) || s.sp >= c.stackSize - 1
    ensures r.Ok? ==> Valid(c, r.value) && r.value.sp == s.sp + 1 && Top(r.value) == s.reg[n]
    ensures r.Ok? ==> r.value == s.(stack := s.stack[s.sp := s.reg[n]], sp := s.sp + 1)
  {
    if !RegistryIndexOk(c, n) then Fail(InvalidRegister(n))
    else DoPush(c, s, s.reg[n])
  }

  /**
   * do_store: check the register index, copy stack[sp - 1] into the
   * register, then pop. With sp == 0 the copy reads below the stack before
   * do_pop can object, which is a fault of its own.
   */
  function DoStore(c: Config, s: State, n: int): (r: Result<State>)
    requires Valid(c, s)
    ensures r.Fail? <==> !RegistryIndexOk(c, n) || s.sp == 0
    ensures r.Ok? ==> Valid(c, r.value) && r.value.sp == s.sp - 1 && r.value.reg[n] == Top(s)
    ensures r.Ok? ==> r.value == s.(reg := s.reg[n := Top(s)], sp := s.sp - 1)
  {
    if !RegistryIndexOk(c, n) then Fail(InvalidRegister(n))
    else if s.sp == 0 then Fail(ReadBelowStack)
    else DoPop(c, s.(reg := s.reg[n := Top(s)]))
  }

  /** do_jmp: check the target, then jump. */
  function DoJmp(c: Config, s: State, n: int): (r: Result<State>)
    requires Valid(c, s)
    ensures r.Fail? <==> !InstructionIndexOk(c, n)
    ensures r.Ok? ==> Valid(c, r.value) && r.value == s.(ip := n)
  {
    if !InstructionIndexOk(c, n) then Fail(InvalidInstructionIndex(n))
    else Ok(s.(ip := n))
  }

  /** do_jz: check the target, then that the stack holds a value; jump when it is zero, without popping. */
  function DoJz(c: Config, s: State, n: int): (r: Result<State>)
    requires Valid(c, s)
    ensures r.Fail? <==> !InstructionIndexOk(c, n) || s.sp < 1
    ensures r.Ok? ==> Valid(c, r.value)
  {
    if !InstructionIndexOk(c, n) then Fail(InvalidInstructionIndex(n))
    else if s.sp < 1 then Fail(TooFewOperands(1))
    else if Top(s) == 0 then Ok(s.(ip := n))
    else Ok(s)
  }

  /** do_jnz: as do_jz, jumping when the top is not zero. */
  function DoJnz(c: Config, s: State, n: int): (r: Result<State>)
    requires Valid(c, s)
    ensures r.Fail? <==> !InstructionIndexOk(c, n) || s.sp < 1
    ensures r.Ok? ==> Valid(c, r.value)
  {
    if !InstructionIndexOk(c, n) then Fail(InvalidInstructionIndex(n))
    else if s.sp < 1 then Fail(TooFewOperands(1))
    else if Top(s) != 0 then Ok(s.(ip := n))
    else Ok(s)
  }

  /** Store the result of a binary operation over the second value and pop; a result outside int overflows. */
  function StoreResult(c: Config, s: State, result: int): (r: Result<State>)
    requires Valid(c, s) && s.sp >= 2
    ensures r.Ok? ==> Valid(c, r.value) && r.value.sp == s.sp - 1 && Top(r.value) as int == result
  {
    if !IsInt32(result) then Fail(IntOverflow)
    else DoPop(c, s.(stack := s.stack[s.sp - 2 := result as int32]))
  }

  /** do_add. */
  function DoAdd(c: Config, s: State): (r: Result<State>)
    requires Valid(c, s)
    ensures r.Fail? <==> s.sp < 2 || !IsInt32(Second(s) as int + Top(s) as int)
    ensures r.Ok? ==> Valid(c, r.value) && r.value.sp == s.sp - 1
    ensures r.Ok? ==> Top(r.value) as int == Second(s) as int + Top(s) as int
  {
    if s.sp < 2 then Fail(TooFewOperands(2))
    else StoreResult(c, s, Second(s) as int + Top(s) as int)
  }

  /** do_sub. */
  function DoSub(c: Config, s: State): (r: Result<State>)
    requires Valid(c, s)
    ensures r.Fail? <==> s.sp < 2 || !IsInt32(Second(s) as int - Top(s) as int)
    ensures r.Ok? ==> Valid(c, r.value) && r.value.sp == s.sp - 1
    ensures r.Ok? ==> Top(r.value) as int == Second(s) as int - Top(s) as int
  {
    if s.sp < 2 then Fail(TooFewOperands(2))
    else StoreResult(c, s, Second(s) as int - Top(s) as int)
  }

  /** do_mul. */
  function DoMul(c: Config, s: State): (r: Result<State>)
    requires Valid(c, s)
    ensures r.Fail? <==> s.sp < 2 || !IsInt32(Second(s) as int * Top(s) as int)
    ensures r.Ok? ==> Valid(c, r.value) && r.value.sp == s.sp - 1
    ensures r.Ok? ==> Top(r.value) as int == Second(s) as int * Top(s) as int
  {
    if s.sp < 2 then Fail(TooFewOperands(2))
    else StoreResult(c, s, Second(s) as int * Top(s) as int)
  }

  /** C's integer division, truncating toward zero. */
  function CDiv(a: int, b: int): int
    requires b != 0
  {
    var q := (if a < 0 then -a else a) / (if b < 0 then -b else b);
    if (a < 0) == (b < 0) then q else -q
  }

  /** do_div as written: the second value divided by itself; dividing zero by zero is undefined. */
  function DoDiv(c: Config, s: State): (r: Result<State>)
    requires Valid(c, s)
    ensures r.Fail? <==> s.sp < 2 || Second(s) == 0
    ensures r.Ok? ==> Valid(c, r.value) && r.value.sp == s.sp - 1 && Top(r.value) == 1
  {
    if s.sp < 2 then Fail(TooFewOperands(2))
    else if Second(s) == 0 then Fail(DivisionByZero)
    else StoreResult(c, s, CDiv(Second(s) as int, Second(s) as int))
  }

  /** do_div as its comment describes it: the second value divided by the top one. */
  function DoDivCorrected(c: Config, s: State): (r: Result<State>)
    requires Valid(c, s)
    ensures s.sp < 2 ==> r == Fail(TooFewOperands(2))
    ensures s.sp >= 2 && Top(s) == 0 ==> r == Fail(DivisionByZero)
    ensures r.Ok? ==> Valid(c, r.value) && r.value.sp == s.sp - 1
    ensures r.Ok? ==> Top(r.value) as int == CDiv(Second(s) as int, Top(s) as int)
  {
    if s.sp < 2 then Fail(TooFewOperands(2))
    else if Top(s) == 0 then Fail(DivisionByZero)
    else StoreResult(c, s, CDiv(Second(s) as int, Top(s) as int))
  }

  /** do_print: the top is written out, then popped. */
  function DoPrint(c: Config, s: State): (r: Result<State>)
    requires Valid(c, s)
    ensures r.Fail? <==> s.sp < 1
    ensures r.Ok? ==> Valid(c, r.value) && r.value.output == s.output + [Top(s)] && r.value.sp == s.sp - 1
  {
    if s.sp < 1 then Fail(TooFewOperands(1))
    else DoPop(c, s.(output := s.output + [Top(s)]))
  }

  // ---------------------------------------------------------------------
  // The execution loop

  datatype Instr = Nop | Push | Pop | Load | Store | Jmp | Jz | Jnz | Add | Sub | Mul | Div | Print | Stop | Unknown

  /** The switch of execute_program: the first case label equal to the byte. */
  function Decode(op: Opcodes, b: byte): (r: Instr)
    ensures r == Unknown <==> b !in OpcodeList(op)
  {
    if b == op.NOP then Nop
    else if b == op.PUSH then Push
    else if b == op.POP then Pop
    else if b == op.LOAD then Load
    else if b == op.STORE then Store
    else if b == op.JMP then Jmp
    else if b == op.JZ then Jz
    else if b == op.JNZ then Jnz
    else if b == op.ADD then Add
    else if b == op.SUB then Sub
    else if b == op.MUL then Mul
    else if b == op.DIV then Div
    else if b == op.PRINT then Print
    else if b == op.STOP then Stop
    else Unknown
  }

  /** The bytes each case reads after the opcode: JNZ reads one, where JZ and JMP read two. */
  function OperandWidth(ins: Instr): int
  {
    match ins
    case Push => 4
    case Load => 1
    case Store => 1
    case Jmp => 2
    case Jz => 2
    case Jnz => 1
    case _ => 0
  }

  /** The operand a case reads at ip, and the state past it; a case without one reads nothing. */
  function ReadOperand(c: Config, s: State, ins: Instr): (r: Result<(int32, State)>)
    requires Valid(c, s)
    ensures r.Ok? ==> Valid(c, r.value.1) && r.value.1 == s.(ip := s.ip + OperandWidth(ins))
    ensures r.Fail? <==> s.ip + OperandWidth(ins) > c.maxInsts && OperandWidth(ins) > 0
  {
    if OperandWidth(ins) == 0 then Ok((0, s))
    else ReadInteger(c, s, OperandWidth(ins))
  }

  /** The handler a case calls, given its operand; DIV runs do_div as written. */
  function Execute(c: Config, s: State, ins: Instr, arg: int32): (r: Result<State>)
    requires Valid(c, s)
    ensures r.Ok? ==> Valid(c, r.value)
    ensures ins == Nop || ins == Stop || ins == Unknown ==> r == Ok(s)
    ensures ins == Div ==> r == DoDiv(c, s)
  {
    match ins
    case Push => DoPush(c, s, arg)
    case Pop => DoPop(c, s)
    case Load => DoLoad(c, s, arg as int)
    case Store => DoStore(c, s, arg as int)
    case Jmp => DoJmp(c, s, arg as int)
    case Jz => DoJz(c, s, arg as int)
    case Jnz => DoJnz(c, s, arg as int)
    case Add => DoAdd(c, s)
    case Sub => DoSub(c, s)
    case Mul => DoMul(c, s)
    case Div => DoDiv(c, s)
    case Print => DoPrint(c, s)
    case _ => Ok(s)
  }

  datatype HaltReason = StopInstruction | InvalidInstruction(opcode: byte)

  datatype StepResult = Continue(state: State) | Halt(reason: HaltReason, state: State) | Fault(error: Error)

  /**
   * One iteration of execute_program's loop: fetch the byte at ip (with
   * no bounds check in the C, so a fetch past the buffer is a fault), move
   * ip past it, read the operand and call the handler. STOP returns; an
   * unknown byte prints a diagnostic and returns too.
   */
  function Step(c: Config, s: State): (r: StepResult)
    requires Valid(c, s)
    ensures r.Continue? ==> Valid(c, r.state)
    ensures r.Halt? ==> r.state == s
  {
    if s.ip >= c.maxInsts then Fault(FetchOutsideProgram(s.ip))
    else
      var b := s.inst[s.ip];
      var ins := Decode(c.op, b);
      if ins == Stop then Halt(StopInstruction, s)
      else if ins == Unknown then Halt(InvalidInstruction(b), s)
      else Dispatch(c, s.(ip := s.ip + 1), ins)
  }

  /** A case of the switch, with ip past the opcode: read the operand, then call the handler. */
  function Dispatch(c: Config, s: State, ins: Instr): (r: StepResult)
    requires Valid(c, s)
    ensures r.Continue? ==> Valid(c, r.state)
    ensures !r.Halt?
  {
    match ReadOperand(c, s, ins)
    case Fail(e) => Fault(e)
    case Ok(read) => Lift(Execute(c, read.1, ins, read.0))
  }

  function Lift(r: Result<State>): StepResult
  {
    match r
    case Ok(s) => Continue(s)
    case Fail(e) => Fault(e)
  }

  datatype RunResult = Halted(reason: HaltReason, state: State) | Faulted(error: Error) | OutOfFuel(state: State)

  /** What the loop needs of a step: defined on valid states, and a continued or halted state is valid. */
  ghost predicate Steps(c: Config, step: State --> StepResult)
  {
    forall t :: Valid(c, t) ==>
      && step.requires(t)
      && (step(t).Continue? ==> Valid(c, step(t).state))
      && (step(t).Halt? ==> step(t).state == t)
  }

  /** A loop that repeats step at most fuel times. */
  function Loop(c: Config, step: State --> StepResult, s: State, fuel: nat): (r: RunResult)
    requires Steps(c, step) && Valid(c, s)
    ensures r.Halted? || r.OutOfFuel? ==> Valid(c, r.state)
    decreases fuel
  {
    if fuel == 0 then OutOfFuel(s)
    else
      match step(s)
      case Continue(next) => Loop(c, step, next, fuel - 1)
      case Halt(reason, last) => Halted(reason, last)
      case Fault(e) => Faulted(e)
  }

  /** Step as a function value, for Loop. */
  function StepOf(c: Config): State --> StepResult
  {
    (t: State) requires Valid(c, t) => Step(c, t)
  }

  /** Step is defined on valid states, keeps them valid, and halts where it stands. */
  lemma StepOfSteps(c: Config)
    ensures Steps(c, StepOf(c))
  {
  }

  /** The loop of execute_program, for at most fuel iterations. */
  function Run(c: Config, s: State, fuel: nat): (r: RunResult)
    requires Valid(c, s)
    ensures r.Halted? || r.OutOfFuel? ==> Valid(c, r.state)
  {
    StepOfSteps(c);
    Loop(c, StepOf(c), s, fuel)
  }

  /** One turn of the loop, then the rest of it. */
  lemma LoopStep(c: Config, step: State --> StepResult, s: State, fuel: nat)
    requires Steps(c, step) && Valid(c, s) && fuel > 0
    ensures Loop(c, step, s, fuel) ==
      match step(s)
      case Continue(t) => Loop(c, step, t, fuel - 1)
      case Halt(reason, t) => Halted(reason, t)
      case Fault(e) => Faulted(e)
  {
  }

  /** execute_program: start at ip = 0 with an empty stack, keeping registers and instructions. */
  function ExecuteProgram(c: Config, s: State, fuel: nat): (r: RunResult)
    requires Valid(c, s)
    ensures r.Halted? || r.OutOfFuel? ==> Valid(c, r.state)
  {
    Run(c, s.(ip := 0, sp := 0), fuel)
  }
}
