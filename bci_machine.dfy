/**
 * The bytecode interpreter as bci.c writes it: one global machine whose
 * stack, registers and instruction buffer are fixed-size arrays, updated
 * in place by the handlers. Each method is proved to do what the
 * corresponding function of BciSpec says of the state before the call.
 * Where the C code calls exit(EXIT_FAILURE), a method returns the error
 * instead, and nothing is promised about the state it leaves.
 */
module BciMachine {
  import opened BciCodec
  import S = BciSpec

  /** How a handler ended: it returned, or it would have exited with the error. */
  type Outcome = S.Result<()>

  /** How one turn of the loop in execute_program ended. */
  datatype StepOutcome = Running | Stopped(reason: S.HaltReason) | Crashed(error: S.Error)

  /** How execute_program ended; StepLimit is the bound the model puts on while (1). */
  datatype Exit = Returned(reason: S.HaltReason) | Exited(error: S.Error) | StepLimit

  class Vm {
    const c: S.Config
    const stack: array<int32>
    const reg: array<int32>
    const inst: array<byte>
    var sp: int
    var ip: int
    /** The values do_print has written to stdout, in order. */
    var output: seq<int32>

    ghost function State(): S.State
      reads this, stack, reg, inst
    {
      S.State(stack[..], sp, reg[..], inst[..], ip, output)
    }

    ghost predicate Valid()
      reads this, stack, reg, inst
    {
      stack != reg && S.Valid(c, State())
    }

    /** The method returned what spec says, and when spec succeeds the machine is in its state. */
    ghost predicate Follows(r: Outcome, spec: S.Result<S.State>)
      reads this, stack, reg, inst
    {
      match spec
      case Ok(t) => r == S.Ok(()) && State() == t
      case Fail(e) => r == S.Fail(e)
    }

    /** The arrays of vm_type, with the sizes of bci.h. */
    constructor (config: S.Config)
      requires config.stackSize >= 1 && config.nregs >= 1 && config.maxInsts >= 1
      ensures Valid() && c == config && output == []
      ensures fresh(stack) && fresh(reg) && fresh(inst)
    {
      c := config;
      stack := new int32[config.stackSize];
      reg := new int32[config.nregs];
      inst := new byte[config.maxInsts];
      sp := 0;
      ip := 0;
      output := [];
    }

    /** init_vm: sp, ip and every cell of the stack, the registers and the instruction buffer become 0. */
    method InitVm()
      requires Valid()
      modifies this, stack, reg, inst
      ensures Valid() && output == old(output)
      ensures State() == S.InitState(c).(output := output)
    {
      sp := 0;
      for i := 0 to stack.Length
        modifies stack
        invariant forall k :: 0 <= k < i ==> stack[k] == 0
      {
        stack[i] := 0;
      }
      for i := 0 to reg.Length
        modifies reg
        invariant forall k :: 0 <= k < i ==> reg[k] == 0
        invariant forall k :: 0 <= k < stack.Length ==> stack[k] == 0
      {
        reg[i] := 0;
      }
      for i := 0 to inst.Length
        modifies inst
        invariant forall k :: 0 <= k < i ==> inst[k] == 0
        invariant forall k :: 0 <= k < stack.Length ==> stack[k] == 0
        invariant forall k :: 0 <= k < reg.Length ==> reg[k] == 0
      {
        inst[i] := 0;
      }
      ip := 0;
      assert stack[..] == S.InitState(c).stack;
      assert reg[..] == S.InitState(c).reg;
      assert inst[..] == S.InitState(c).inst;
    }

    /**
     * load_program, given the bytes of the file: they are copied to the
     * start of the instruction buffer, and the rest of it is left alone.
     */
    method LoadProgram(program: seq<byte>)
      requires Valid() && |program| <= inst.Length
      modifies inst
      ensures Valid()
      ensures inst[..] == program + old(inst[|program|..])
    {
      for i := 0 to |program|
        invariant inst[..i] == program[..i]
        invariant inst[i..] == old(inst[i..])
      {
        inst[i] := program[i];
        assert inst[..i + 1] == program[..i + 1];
      }
    }

    /**
     * The loop of read_n_byte_integer: the n bytes at ip, low-order first,
     * with ip moved past each one; the first byte past the instruction
     * buffer is a fault.
     */
    method ReadBytes(n: nat) returns (r: S.Result<nat>)
      requires 0 <= ip && n >= 1
      modifies this
      ensures old(ip) <= ip && sp == old(sp) && output == old(output)
      ensures r.Ok? <==> old(ip) + n <= inst.Length
      ensures r.Ok? ==> ip == old(ip) + n && r.value == LittleEndian(inst[old(ip)..old(ip) + n])
      ensures r.Fail? ==> r.error == S.FetchOutsideProgram(if old(ip) > inst.Length then old(ip) else inst.Length)
    {
      var start := ip;
      var acc: nat := 0;
      var i := 0;
      while i < n
        invariant 0 <= i <= n && ip == start + i
        invariant start + i <= inst.Length || (i == 0 && acc == 0)
        invariant start + i <= inst.Length ==> acc == LittleEndian(inst[start..start + i])
        invariant output == old(output) && sp == old(sp)
      {
        if ip >= inst.Length {
          return S.Fail(S.FetchOutsideProgram(ip));
        }
        assert inst[start..start + i + 1] == inst[start..start + i] + [inst[ip]];
        LittleEndianSnoc(inst[start..start + i], inst[ip]);
        acc := acc + inst[ip] as int * Pow256(i);
        ip := ip + 1;
        i := i + 1;
      }
      return S.Ok(acc);
    }

    /**
     * read_n_byte_integer: the bytes fill an int that starts at 0 from its
     * low-order end, so four of them make a two's complement value.
     */
    method ReadNByteInteger(n: int) returns (r: S.Result<int32>)
      requires Valid() && (n == 1 || n == 2 || n == 4)
      modifies this
      ensures Valid() && unchanged(stack, reg, inst)
      ensures match S.ReadInteger(c, old(State()), n)
        case Ok(read) => r == S.Ok(read.0) && State() == read.1
        case Fail(e) => r.Fail? && r.error == e
    {
      var bytes := ReadBytes(n);
      if bytes.Fail? {
        return S.Fail(bytes.error);
      }
      var u := bytes.value;
      assert Pow256(n) <= 0x1_0000_0000;
      TwosComplement(u, 0);
      var val := if n == 4 then Signed32(u) else u;
      return S.Ok(val as int32);
    }

    /** do_push. */
    method DoPush(n: int32) returns (r: Outcome)
      requires Valid()
      modifies this, stack
      ensures Valid()
      ensures Follows(r, S.DoPush(c, old(State()), n))
    {
      if sp >= stack.Length - 1 {
        return S.Fail(S.StackOverflow);
      }
      stack[sp] := n;
      sp := sp + 1;
      return S.Ok(());
    }

    /** do_pop. */
    method DoPop() returns (r: Outcome)
      requires Valid()
      modifies this
      ensures Valid() && unchanged(stack, reg, inst)
      ensures Follows(r, S.DoPop(c, old(State())))
    {
      if sp <= 0 {
        return S.Fail(S.StackUnderflow);
      }
      sp := sp - 1;
      return S.Ok(());
    }

    /** check_registry_index. */
    method CheckRegistryIndex(n: int) returns (r: Outcome)
      requires Valid()
      ensures r == if S.RegistryIndexOk(c, n) then S.Ok(()) else S.Fail(S.InvalidRegister(n))
    {
      if n >= reg.Length || n < 0 {
        return S.Fail(S.InvalidRegister(n));
      }
      return S.Ok(());
    }

    /** check_instruction_index. */
    method CheckInstructionIndex(n: int) returns (r: Outcome)
      requires Valid()
      ensures r == if S.InstructionIndexOk(c, n) then S.Ok(()) else S.Fail(S.InvalidInstructionIndex(n))
    {
      if n >= inst.Length || n < 0 {
        return S.Fail(S.InvalidInstructionIndex(n));
      }
      return S.Ok(());
    }

    /** check_stack_size. */
    method CheckStackSize(minLength: int) returns (r: Outcome)
      requires Valid()
      ensures r == if sp >= minLength then S.Ok(()) else S.Fail(S.TooFewOperands(minLength))
    {
      if sp < minLength {
        return S.Fail(S.TooFewOperands(minLength));
      }
      return S.Ok(());
    }

    /** do_load. */
    method DoLoad(n: int) returns (r: Outcome)
      requires Valid()
      modifies this, stack
      ensures Valid()
      ensures Follows(r, S.DoLoad(c, old(State()), n))
    {
      r := CheckRegistryIndex(n);
      if r.Fail? {
        return;
      }
      r := DoPush(reg[n]);
    }

    /**
     * do_store. The C copies stack[sp - 1] before do_pop checks for an
     * empty stack; here that read below the stack is the error.
     */
    method DoStore(n: int) returns (r: Outcome)
      requires Valid()
      modifies this, reg
      ensures Valid()
      ensures Follows(r, S.DoStore(c, old(State()), n))
    {
      r := CheckRegistryIndex(n);
      if r.Fail? {
        return;
      }
      if sp == 0 {
        return S.Fail(S.ReadBelowStack);
      }
      reg[n] := stack[sp - 1];
      r := DoPop();
    }

    /** do_jmp. */
    method DoJmp(n: int) returns (r: Outcome)
      requires Valid()
      modifies this
      ensures Valid() && unchanged(stack, reg, inst)
      ensures Follows(r, S.DoJmp(c, old(State()), n))
    {
      r := CheckInstructionIndex(n);
      if r.Fail? {
        return;
      }
      ip := n;
    }

    /** do_jz. */
    method DoJz(n: int) returns (r: Outcome)
      requires Valid()
      modifies this
      ensures Valid() && unchanged(stack, reg, inst)
      ensures Follows(r, S.DoJz(c, old(State()), n))
    {
      r := CheckInstructionIndex(n);
      if r.Fail? {
        return;
      }
      r := CheckStackSize(1);
      if r.Fail? {
        return;
      }
      if stack[sp - 1] == 0 {
        ip := n;
      }
    }

    /** do_jnz. */
    method DoJnz(n: int) returns (r: Outcome)
      requires Valid()
      modifies this
      ensures Valid() && unchanged(stack, reg, inst)
      ensures Follows(r, S.DoJnz(c, old(State()), n))
    {
      r := CheckInstructionIndex(n);
      if r.Fail? {
        return;
      }
      r := CheckStackSize(1);
      if r.Fail? {
        return;
      }
      if stack[sp - 1] != 0 {
        ip := n;
      }
    }

    /** The common tail of do_add, do_sub, do_mul and do_div: result over the second value, then do_pop. */
    method StoreResult(result: int) returns (r: Outcome)
      requires Valid() && sp >= 2
      modifies this, stack
      ensures Valid()
      ensures Follows(r, S.StoreResult(c, old(State()), result))
    {
      if !IsInt32(result) {
        return S.Fail(S.IntOverflow);
      }
      stack[sp - 2] := result as int32;
      r := DoPop();
    }

    /** do_add. */
    method DoAdd() returns (r: Outcome)
      requires Valid()
      modifies this, stack
      ensures Valid()
      ensures Follows(r, S.DoAdd(c, old(State())))
    {
      r := CheckStackSize(2);
      if r.Fail? {
        return;
      }
      r := StoreResult(stack[sp - 2] as int + stack[sp - 1] as int);
    }

    /** do_sub. */
    method DoSub() returns (r: Outcome)
      requires Valid()
      modifies this, stack
      ensures Valid()
      ensures Follows(r, S.DoSub(c, old(State())))
    {
      r := CheckStackSize(2);
      if r.Fail? {
        return;
      }
      r := StoreResult(stack[sp - 2] as int - stack[sp - 1] as int);
    }

    /** do_mul. */
    method DoMul() returns (r: Outcome)
      requires Valid()
      modifies this, stack
      ensures Valid()
      ensures Follows(r, S.DoMul(c, old(State())))
    {
      r := CheckStackSize(2);
      if r.Fail? {
        return;
      }
      r := StoreResult(stack[sp - 2] as int * stack[sp - 1] as int);
    }

    /** do_div, as written: stack[sp - 2] divided by itself. */
    method DoDiv() returns (r: Outcome)
      requires Valid()
      modifies this, stack
      ensures Valid()
      ensures Follows(r, S.DoDiv(c, old(State())))
    {
      r := CheckStackSize(2);
      if r.Fail? {
        return;
      }
      if stack[sp - 2] == 0 {
        return S.Fail(S.DivisionByZero);
      }
      r := StoreResult(S.CDiv(stack[sp - 2] as int, stack[sp - 2] as int));
    }

    /** do_print. */
    method DoPrint() returns (r: Outcome)
      requires Valid()
      modifies this
      ensures Valid() && unchanged(stack, reg, inst)
      ensures Follows(r, S.DoPrint(c, old(State())))
    {
      r := CheckStackSize(1);
      if r.Fail? {
        return;
      }
      output := output + [stack[sp - 1]];
      r := DoPop();
    }

    /** The handler call of each case of the switch in execute_program. */
    method Execute(ins: S.Instr, arg: int32) returns (r: Outcome)
      requires Valid()
      modifies this, stack, reg
      ensures Valid()
      ensures Follows(r, S.Execute(c, old(State()), ins, arg))
    {
      match ins {
        case Push => r := DoPush(arg);
        case Pop => r := DoPop();
        case Load => r := DoLoad(arg as int);
        case Store => r := DoStore(arg as int);
        case Jmp => r := DoJmp(arg as int);
        case Jz => r := DoJz(arg as int);
        case Jnz => r := DoJnz(arg as int);
        case Add => r := DoAdd();
        case Sub => r := DoSub();
        case Mul => r := DoMul();
        case Div => r := DoDiv();
        case Print => r := DoPrint();
        case _ => r := S.Ok(());
      }
    }

    /** The operand read of a case: read_n_byte_integer with the case's width, or nothing. */
    method ReadOperand(ins: S.Instr) returns (r: S.Result<int32>)
      requires Valid()
      modifies this
      ensures Valid() && unchanged(stack, reg, inst)
      ensures match S.ReadOperand(c, old(State()), ins)
        case Ok(read) => r == S.Ok(read.0) && State() == read.1
        case Fail(e) => r.Fail? && r.error == e
    {
      if S.OperandWidth(ins) == 0 {
        return S.Ok(0);
      }
      r := ReadNByteInteger(S.OperandWidth(ins));
    }

    /** One turn of the loop in execute_program: fetch, switch, read the operand, call the handler. */
    method Step() returns (o: StepOutcome)
      requires Valid()
      modifies this, stack, reg
      ensures Valid()
      ensures S.StepOf(c).requires(old(State()))
      ensures match S.StepOf(c)(old(State()))
        case Continue(t) => o == Running && State() == t
        case Halt(reason, t) => o == Stopped(reason) && State() == t
        case Fault(e) => o == Crashed(e)
    {
      if ip >= inst.Length {
        return Crashed(S.FetchOutsideProgram(ip));
      }
      var b := inst[ip];
      var ins := S.Decode(c.op, b);
      if ins == S.Stop {
        return Stopped(S.StopInstruction);
      }
      if ins == S.Unknown {
        return Stopped(S.InvalidInstruction(b));
      }
      ip := ip + 1;
      o := Dispatch(ins);
    }

    /** A case of the switch, with ip past the opcode: read the operand, then call the handler. */
    method Dispatch(ins: S.Instr) returns (o: StepOutcome)
      requires Valid()
      modifies this, stack, reg
      ensures Valid()
      ensures match S.Dispatch(c, old(State()), ins)
        case Continue(t) => o == Running && State() == t
        case Halt(_, _) => false
        case Fault(e) => o == Crashed(e)
    {
      var read := ReadOperand(ins);
      if read.Fail? {
        return Crashed(read.error);
      }
      var r := Execute(ins, read.value);
      if r.Fail? {
        return Crashed(r.error);
      }
      return Running;
    }

    /** One turn of execute_program's loop, against what the rest of the loop is to give. */
    method Turn(ghost fuel: nat, ghost outcome: S.RunResult) returns (o: StepOutcome)
      requires Valid() && fuel > 0
      requires S.Run(c, State(), fuel) == outcome
      modifies this, stack, reg
      ensures Valid()
      ensures o == Running ==> S.Run(c, State(), fuel - 1) == outcome
      ensures o.Stopped? ==> outcome == S.Halted(o.reason, State())
      ensures o.Crashed? ==> outcome == S.Faulted(o.error)
    {
      S.StepOfSteps(c);
      S.LoopStep(c, S.StepOf(c), State(), fuel);
      o := Step();
    }

    /** The loop of execute_program, from the current state, for at most fuel turns. */
    method RunLoop(fuel: nat, ghost outcome: S.RunResult) returns (e: Exit)
      requires Valid()
      requires S.Run(c, State(), fuel) == outcome
      modifies this, stack, reg
      ensures Valid()
      ensures match outcome
        case Halted(reason, t) => e == Returned(reason) && State() == t
        case Faulted(err) => e == Exited(err)
        case OutOfFuel(t) => e == StepLimit && State() == t
    {
      var left := fuel;
      while left > 0
        invariant Valid()
        invariant S.Run(c, State(), left) == outcome
        decreases left
      {
        var o := Turn(left, outcome);
        match o {
          case Running =>
          case Stopped(reason) => return Returned(reason);
          case Crashed(err) => return Exited(err);
        }
        left := left - 1;
      }
      return StepLimit;
    }

    /**
     * execute_program: ip and sp start at 0 and the loop turns until STOP,
     * an unknown byte or an error, or until fuel turns have been taken.
     */
    method ExecuteProgram(fuel: nat) returns (e: Exit)
      requires Valid()
      modifies this, stack, reg
      ensures Valid()
      ensures match S.ExecuteProgram(c, old(State()), fuel)
        case Halted(reason, t) => e == Returned(reason) && State() == t
        case Faulted(err) => e == Exited(err)
        case OutOfFuel(t) => e == StepLimit && State() == t
    {
      ghost var outcome := S.ExecuteProgram(c, State(), fuel);
      ip := 0;
      sp := 0;
      assert State() == old(State()).(ip := 0, sp := 0);
      S.StepOfSteps(c);
      e := RunLoop(fuel, outcome);
    }
  }
}
