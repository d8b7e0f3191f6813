/**
 * What the bytecode interpreter promises, stated over BciSpec: the
 * round trips through the stack and the registers, what the jumps and the
 * arithmetic do, what the switch decodes, when a run halts, and how DIV
 * as written differs from DIV as described.
 */
module BciProperties {
  import opened BciCodec
  import opened BciSpec

  /** PUSH then POP leaves sp, the registers, ip and the output as they were; only a stale cell changes. */
  lemma PushPopRoundTrip(c: Config, s: State, n: int32)
    requires Valid(c, s) && s.sp < c.stackSize - 1
    ensures DoPush(c, s, n).Ok?
    ensures DoPop(c, DoPush(c, s, n).value) == Ok(s.(stack := s.stack[s.sp := n]))
  {
  }

  /** STORE r then LOAD r puts the stored value back on top, with sp and register r as STORE left them. */
  lemma StoreLoadRoundTrip(c: Config, s: State, r: int)
    requires Valid(c, s) && RegistryIndexOk(c, r) && s.sp >= 1
    ensures DoStore(c, s, r).Ok?
    ensures DoLoad(c, DoStore(c, s, r).value, r).Ok?
    ensures var t := DoLoad(c, DoStore(c, s, r).value, r).value;
      t.sp == s.sp && Top(t) == Top(s) && t.reg == s.reg[r := Top(s)]
  {
  }

  /**
   * JZ and JNZ with a valid target and a value on the stack never pop it;
   * JZ jumps exactly when the top is zero and JNZ exactly when it is not.
   */
  lemma ConditionalJumps(c: Config, s: State, n: int)
    requires Valid(c, s) && InstructionIndexOk(c, n) && s.sp >= 1
    ensures DoJz(c, s, n).Ok? && DoJnz(c, s, n).Ok?
    ensures DoJz(c, s, n).value.(ip := s.ip) == s && DoJnz(c, s, n).value.(ip := s.ip) == s
    ensures DoJz(c, s, n).value.ip == if Top(s) == 0 then n else s.ip
    ensures DoJnz(c, s, n).value.ip == if Top(s) != 0 then n else s.ip
  {
  }

  /** The jumps fault on a target outside the buffer before looking at the stack. */
  lemma JumpTargetCheckedFirst(c: Config, s: State, n: int)
    requires Valid(c, s) && !InstructionIndexOk(c, n)
    ensures DoJmp(c, s, n) == Fail(InvalidInstructionIndex(n))
    ensures DoJz(c, s, n) == Fail(InvalidInstructionIndex(n))
    ensures DoJnz(c, s, n) == Fail(InvalidInstructionIndex(n))
  {
  }

  /** The stack below the two operands, and everything but the stack, as a binary operation leaves them. */
  predicate BinaryResult(s: State, t: State, result: int)
    requires 2 <= s.sp <= |s.stack|
  {
    && t.sp == s.sp - 1 && |t.stack| == |s.stack|
    && t.stack[..s.sp - 2] == s.stack[..s.sp - 2] && t.stack[s.sp - 2] as int == result
    && t.reg == s.reg && t.ip == s.ip && t.inst == s.inst && t.output == s.output
  }

  /**
   * ADD, SUB and MUL need two values; they replace the second with the
   * result and pop, and fault when the result does not fit in an int.
   */
  lemma Arithmetic(c: Config, s: State)
    requires Valid(c, s)
    ensures s.sp < 2 ==> DoAdd(c, s) == DoSub(c, s) == DoMul(c, s) == Fail(TooFewOperands(2))
    ensures s.sp >= 2 ==>
      && (DoAdd(c, s).Ok? <==> IsInt32(Second(s) as int + Top(s) as int))
      && (DoAdd(c, s).Ok? ==> BinaryResult(s, DoAdd(c, s).value, Second(s) as int + Top(s) as int))
    ensures s.sp >= 2 ==>
      && (DoSub(c, s).Ok? <==> IsInt32(Second(s) as int - Top(s) as int))
      && (DoSub(c, s).Ok? ==> BinaryResult(s, DoSub(c, s).value, Second(s) as int - Top(s) as int))
    ensures s.sp >= 2 ==>
      && (DoMul(c, s).Ok? <==> IsInt32(Second(s) as int * Top(s) as int))
      && (DoMul(c, s).Ok? ==> BinaryResult(s, DoMul(c, s).value, Second(s) as int * Top(s) as int))
  {
  }

  /** PRINT appends the top to the output and pops it. */
  lemma PrintWritesTop(c: Config, s: State)
    requires Valid(c, s) && s.sp >= 1
    ensures DoPrint(c, s) == Ok(s.(output := s.output + [Top(s)], sp := s.sp - 1))
  {
  }

  /** C99's rule for /: the quotient is truncated toward zero, so the remainder is smaller than the divisor and takes the sign of the dividend. */
  lemma CDivTruncates(a: int, b: int)
    requires b != 0
    ensures var r := a - b * CDiv(a, b);
      (if r < 0 then -r else r) < (if b < 0 then -b else b) && (r == 0 || (r < 0 <==> a < 0))
  {
    var ua := if a < 0 then -a else a;
    var ub := if b < 0 then -b else b;
    var q := ua / ub;
    assert ua == ub * q + ua % ub;
    if (a < 0) == (b < 0) {
      assert CDiv(a, b) == q;
      if a < 0 {
        assert a - b * q == -(ua - ub * q);
      } else {
        assert a - b * q == ua - ub * q;
      }
    } else {
      assert CDiv(a, b) == -q;
      if a < 0 {
        assert a - b * -q == -(ua - ub * q);
      } else {
        assert a - b * -q == ua - ub * q;
      }
    }
  }

  /** DIV as written divides the second value by itself: whenever it succeeds the result is 1, whatever the divisor. */
  lemma DivAsWrittenIgnoresDivisor(c: Config, s: State)
    requires Valid(c, s) && s.sp >= 2 && Second(s) != 0
    ensures DoDiv(c, s).Ok?
    ensures BinaryResult(s, DoDiv(c, s).value, 1)
  {
    assert CDiv(Second(s) as int, Second(s) as int) == 1;
  }

  /** 9 / 3 gives 1 with DIV as written and 3 with DIV as described. */
  lemma DivNineByThree(c: Config, s: State)
    requires Valid(c, s) && s.sp >= 2 && Second(s) == 9 && Top(s) == 3
    ensures DoDiv(c, s).Ok? && Top(DoDiv(c, s).value) == 1
    ensures DoDivCorrected(c, s).Ok? && Top(DoDivCorrected(c, s).value) == 3
  {
    DivAsWrittenIgnoresDivisor(c, s);
    DivCorrected(c, s);
  }

  /**
   * DIV as described: second / top truncated toward zero; it faults on a
   * zero divisor and on INT_MIN / -1, the one quotient that overflows.
   */
  lemma DivCorrected(c: Config, s: State)
    requires Valid(c, s) && s.sp >= 2
    ensures Top(s) == 0 ==> DoDivCorrected(c, s) == Fail(DivisionByZero)
    ensures Top(s) != 0 ==>
      (DoDivCorrected(c, s).Ok? <==> !(Second(s) as int == INT32_MIN && Top(s) == -1))
    ensures Top(s) != 0 && DoDivCorrected(c, s).Ok? ==>
      BinaryResult(s, DoDivCorrected(c, s).value, CDiv(Second(s) as int, Top(s) as int))
  {
    if Top(s) != 0 {
      CDivInRange(Second(s) as int, Top(s) as int);
    }
  }

  /** A quotient of ints is an int except for INT_MIN / -1. */
  lemma CDivInRange(a: int, b: int)
    requires IsInt32(a) && IsInt32(b) && b != 0
    ensures IsInt32(CDiv(a, b)) <==> !(a == INT32_MIN && b == -1)
  {
    var ua := if a < 0 then -a else a;
    var ub := if b < 0 then -b else b;
    var q := ua / ub;
    if ub == 1 {
      assert q == ua;
    } else {
      QuotientHalves(ua, ub);
      assert q <= ua / 2;
      assert ua <= 0x8000_0000 && q <= 0x4000_0000;
      assert CDiv(a, b) == q || CDiv(a, b) == -q;
    }
  }

  lemma QuotientHalves(x: int, d: int)
    requires x >= 0 && d >= 2
    ensures x / d <= x / 2
  {
    DivBounds(x, d);
    DoubleAtMost(x / d, d);
  }

  lemma DivBounds(x: int, d: int)
    requires x >= 0 && d > 0
    ensures 0 <= x / d && d * (x / d) <= x
  {
  }

  lemma DoubleAtMost(q: int, d: int)
    requires q >= 0 && d >= 2
    ensures 2 * q <= d * q
  {
    assert d * q == 2 * q + (d - 2) * q;
  }

  /** The instructions in the order OpcodeList lists their bytes. */
  function InstrList(): seq<Instr>
  {
    [Nop, Push, Pop, Load, Store, Jmp, Jz, Jnz, Add, Sub, Mul, Div, Print, Stop]
  }

  /** With distinct case labels, the switch sends each opcode byte to its own instruction. */
  lemma DecodeTable(op: Opcodes, k: int)
    requires DistinctOpcodes(op) && 0 <= k < |OpcodeList(op)|
    ensures Decode(op, OpcodeList(op)[k]) == InstrList()[k]
  {
    var ops := OpcodeList(op);
    assert ops[0] == op.NOP && ops[1] == op.PUSH && ops[2] == op.POP && ops[3] == op.LOAD;
    assert ops[4] == op.STORE && ops[5] == op.JMP && ops[6] == op.JZ && ops[7] == op.JNZ;
    assert ops[8] == op.ADD && ops[9] == op.SUB && ops[10] == op.MUL && ops[11] == op.DIV;
    assert ops[12] == op.PRINT && ops[13] == op.STOP;
    forall j | 0 <= j < k
      ensures ops[j] != ops[k]
    {
    }
  }

  /** A step halts only at a STOP byte or at a byte that is no opcode, where it stands. */
  lemma StepHalts(c: Config, s: State)
    requires Valid(c, s) && Step(c, s).Halt?
    ensures 0 <= s.ip < c.maxInsts
    ensures Step(c, s).reason == StopInstruction ==> Decode(c.op, s.inst[s.ip]) == Stop
    ensures Step(c, s).reason.InvalidInstruction? ==>
      Step(c, s).reason.opcode == s.inst[s.ip] && s.inst[s.ip] !in OpcodeList(c.op)
  {
  }

  /** A loop ends normally only in a state where its step halts, with the reason that step gave. */
  lemma {:induction false} LoopHalts(c: Config, step: State --> StepResult, s: State, fuel: nat)
    requires Steps(c, step) && Valid(c, s) && Loop(c, step, s, fuel).Halted?
    ensures var r := Loop(c, step, s, fuel);
      step.requires(r.state) && step(r.state) == Halt(r.reason, r.state)
    decreases fuel
  {
    if step(s).Continue? {
      LoopHalts(c, step, step(s).state, fuel - 1);
    }
  }

  /**
   * execute_program ends normally only at a STOP byte or at a byte that is
   * no opcode, leaving the state as that last fetch found it.
   */
  lemma HaltMeans(c: Config, s: State, fuel: nat)
    requires Valid(c, s) && Run(c, s, fuel).Halted?
    ensures var t := Run(c, s, fuel).state;
      && 0 <= t.ip < c.maxInsts
      && (Run(c, s, fuel).reason == StopInstruction ==> Decode(c.op, t.inst[t.ip]) == Stop)
      && (Run(c, s, fuel).reason.InvalidInstruction? ==>
            Run(c, s, fuel).reason.opcode == t.inst[t.ip] && t.inst[t.ip] !in OpcodeList(c.op))
  {
    StepOfSteps(c);
    LoopHalts(c, StepOf(c), s, fuel);
    StepHalts(c, Run(c, s, fuel).state);
  }

  /** A loop that used up f1 steps and is resumed for f2 more is a loop of f1 + f2 steps. */
  lemma {:induction false} LoopResumes(c: Config, step: State --> StepResult, s: State, f1: nat, f2: nat)
    requires Steps(c, step) && Valid(c, s) && Loop(c, step, s, f1).OutOfFuel?
    ensures Loop(c, step, s, f1 + f2) == Loop(c, step, Loop(c, step, s, f1).state, f2)
    decreases f1
  {
    if f1 > 0 {
      LoopResumes(c, step, step(s).state, f1 - 1, f2);
    }
  }

  /** A loop result other than running out of steps is final: k more steps change nothing. */
  lemma {:induction false} LoopSettles(c: Config, step: State --> StepResult, s: State, f: nat, k: nat)
    requires Steps(c, step) && Valid(c, s) && !Loop(c, step, s, f).OutOfFuel?
    ensures Loop(c, step, s, f + k) == Loop(c, step, s, f)
    decreases f
  {
    if step(s).Continue? {
      LoopSettles(c, step, step(s).state, f - 1, k);
    }
  }

  /** execute_program's loop, stopped after f1 iterations and resumed for f2, is the loop run for f1 + f2. */
  lemma RunResumes(c: Config, s: State, f1: nat, f2: nat)
    requires Valid(c, s) && Run(c, s, f1).OutOfFuel?
    ensures Run(c, s, f1 + f2) == Run(c, Run(c, s, f1).state, f2)
  {
    StepOfSteps(c);
    LoopResumes(c, StepOf(c), s, f1, f2);
  }

  /** Once execute_program has halted or faulted, a larger step bound gives the same result. */
  lemma RunSettles(c: Config, s: State, f: nat, k: nat)
    requires Valid(c, s) && !Run(c, s, f).OutOfFuel?
    ensures Run(c, s, f + k) == Run(c, s, f)
  {
    StepOfSteps(c);
    LoopSettles(c, StepOf(c), s, f, k);
  }

  /**
   * JNZ reads a one-byte target where JZ and JMP read two: from the same
   * bytes, JNZ takes the first as its target and moves ip one byte on, JZ
   * and JMP take the first two and move ip two bytes on.
   */
  lemma JnzOperandWidth(c: Config, s: State)
    requires Valid(c, s) && s.ip + 2 <= c.maxInsts
    ensures ReadOperand(c, s, Jnz) == Ok((s.inst[s.ip] as int32, s.(ip := s.ip + 1)))
    ensures ReadOperand(c, s, Jz) == ReadOperand(c, s, Jmp)
    ensures ReadOperand(c, s, Jz) ==
      Ok(((s.inst[s.ip] as int + 256 * s.inst[s.ip + 1] as int) as int32, s.(ip := s.ip + 2)))
  {
    var one := s.inst[s.ip..s.ip + 1];
    var two := s.inst[s.ip..s.ip + 2];
    assert one[..0] == [] && two[..1] == one;
    assert LittleEndian(one) == s.inst[s.ip] as int;
  }

  /** execute_program starts from ip = 0 with an empty stack, whatever the machine held before. */
  lemma ExecuteIgnoresStaleState(c: Config, s: State, t: State, fuel: nat)
    requires Valid(c, s) && Valid(c, t)
    requires t.stack == s.stack && t.reg == s.reg && t.inst == s.inst && t.output == s.output
    ensures ExecuteProgram(c, s, fuel) == ExecuteProgram(c, t, fuel)
  {
  }
}
