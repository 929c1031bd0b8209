/**
 * One clock cycle of the machine as a function on states: fetch the word at
 * `pc`, decode its opcode, run the ALU on DATA and the register or input,
 * write back, latch OUTPUT, apply the stack operation and pick the next `pc`.
 * An instruction word is OPCODE (4 bits), DEST (1 bit) and DATA (8 bits).
 */
module Engine {
  import opened Bits
  import opened Options
  import Alu
  import opened Control
  import opened CallStack

  /**
   * Everything a cycle reads or writes: the program counter, the program
   * store, the two registers, the 4-slot stack and the shared input and
   * output latches.
   */
  datatype MachineState = MachineState(pc: nat, program: seq<Bits>, reg0: Bits, reg1: Bits,
                                       stack: seq<Bits>, input: Bits, output: Bits)

  /** The exceptions a cycle can raise: `IndexError` at the fetch, `KeyError` at the decode. */
  datatype Fault = PcOutOfRange | InvalidOpcode

  datatype Step = Next(state: MachineState) | Raise(fault: Fault)

  /**
   * What every reachable state satisfies: 13-bit words, four 8-bit stack
   * slots, an 8-bit input latch and registers of at least 8 bits (AND can
   * widen them).
   */
  predicate ValidState(s: MachineState)
  {
    |s.stack| == 4 && (forall i :: 0 <= i < 4 ==> |s.stack[i]| == 8) &&
    |s.reg0| >= 8 && |s.reg1| >= 8 && |s.input| == 8 &&
    forall i :: 0 <= i < |s.program| ==> |s.program[i]| == 13
  }

  function OpcodeField(w: Bits): Bits
    requires |w| == 13
  {
    w[0..4]
  }

  function DestField(w: Bits): Bit
    requires |w| == 13
  {
    w[4]
  }

  function DataField(w: Bits): (r: Bits)
    requires |w| == 13
    ensures |r| == 8
  {
    w[5..]
  }

  /** The register DEST names: `reg0` for '0', `reg1` otherwise. */
  function RegisterAt(s: MachineState, dest: Bit): Bits
  {
    if dest == '0' then s.reg0 else s.reg1
  }

  /** `setReg`: write `x` into the register DEST names, when the write is enabled. */
  function SetReg(s: MachineState, dest: Bit, x: Bits, regEna: bool): (r: MachineState)
    ensures RegisterAt(r, dest) == if regEna then x else RegisterAt(s, dest)
    ensures dest == '0' ==> r.reg1 == s.reg1
    ensures dest != '0' ==> r.reg0 == s.reg0
    ensures r.(reg0 := s.reg0, reg1 := s.reg1) == s
  {
    if !regEna then s
    else if dest == '0' then s.(reg0 := x)
    else s.(reg1 := x)
  }

  /** `MCU.stackOp[StackOp](x)`: hold, push `x`, or pop (whose result is dropped). */
  function ApplyStackOp(op: StackOp, stack: seq<Bits>, x: Bits): (r: seq<Bits>)
    requires |stack| > 0
    ensures |r| == |stack|
  {
    match op
    case Hold => stack
    case Push => Pushed(stack, x)
    case Pop => Popped(stack)
  }

  /**
   * The next `pc`. `top` is slot 0 of the stack as read before the stack
   * operation runs. Every jump target is read from a byte, so a jump can only
   * reach the first 256 words of the program store.
   */
  function NextPc(src: AddrSrc, pc: nat, data: Bits, top: Bits, zero: bool): (r: nat)
    requires |data| > 0 && |top| > 0
    ensures src == PcPlusOne ==> r == pc + 1
    ensures |data| == 8 && |top| == 8 ==> r == pc + 1 || r < 256
  {
    Pow2Widths();
    match src
    case DataIfZero => if zero then FromStringToInt(data) else pc + 1
    case Data => FromStringToInt(data)
    case Tos => FromStringToInt(top)
    case PcPlusOne => pc + 1
  }

  /**
   * `runClock`. A fault is raised before anything is written, so the state
   * after a fault is the state before it.
   */
  function Cycle(s: MachineState): (r: Step)
    requires ValidState(s)
    ensures r == Raise(PcOutOfRange) <==> s.pc >= |s.program|
    ensures r == Raise(InvalidOpcode) <==>
      s.pc < |s.program| && FromStringToInt(OpcodeField(s.program[s.pc])) >= 13
    ensures r.Next? ==> ValidState(r.state)
    ensures r.Next? ==> r.state.program == s.program && r.state.input == s.input
  {
    if s.pc >= |s.program| then Raise(PcOutOfRange)
    else
      match Decoded(s.program[s.pc])
      case None => Raise(InvalidOpcode)
      case Some(m) => Next(Execute(s, m))
  }

  /** The second ALU operand: the register DEST names, or the input latch for IN and INXOR. */
  function Operand(s: MachineState, m: Mnemonic, dest: Bit): (r: Bits)
    ensures m in {In, InXor} ==> r == s.input
    ensures m !in {In, InXor} ==> r == RegisterAt(s, dest)
    ensures ValidState(s) ==> |r| >= 8
  {
    if Design(m).aluSrc == Reg then RegisterAt(s, dest) else s.input
  }

  /**
   * The rest of a cycle once the word at `pc` has decoded to `m`: run the
   * ALU on DATA and the operand, write back, latch OUTPUT, apply the stack
   * operation and pick the next `pc`.
   */
  function Execute(s: MachineState, m: Mnemonic): (t: MachineState)
    requires ValidState(s) && s.pc < |s.program| && Decoded(s.program[s.pc]) == Some(m)
    ensures ValidState(t)
    ensures t.program == s.program && t.input == s.input
  {
    var word := s.program[s.pc];
    var data := DataField(word);
    var dest := DestField(word);
    var sig := Design(m);
    var out := Alu.Evaluate(sig.aluOp, data, Operand(s, m, dest));
    var stack := ApplyStackOp(sig.stackOp, s.stack, FromIntToString(s.pc + 1));
    var t := SetReg(s, dest, out.res, sig.regEna).(
      pc := NextPc(sig.addrSrc, s.pc, data, s.stack[0], out.zero),
      stack := stack,
      output := if sig.outEna then out.res else s.output);
    assert ValidState(t) by {
      assert forall i :: 0 <= i < 4 ==> |stack[i]| == 8 by {
        assert |FromIntToString(s.pc + 1)| == 8;
      }
    }
    t
  }

  /** `Execute` field by field: write back, OUTPUT, stack and `pc`. */
  lemma ExecuteFields(s: MachineState, m: Mnemonic)
    requires ValidState(s) && s.pc < |s.program| && Decoded(s.program[s.pc]) == Some(m)
    ensures var w := s.program[s.pc]; var d := DestField(w); var data := DataField(w);
      var sig := Design(m); var out := Alu.Evaluate(sig.aluOp, data, Operand(s, m, d));
      var t := Execute(s, m);
      t.pc == NextPc(sig.addrSrc, s.pc, data, s.stack[0], out.zero) &&
      t.stack == ApplyStackOp(sig.stackOp, s.stack, FromIntToString(s.pc + 1)) &&
      t.output == (if sig.outEna then out.res else s.output) &&
      t.reg0 == SetReg(s, d, out.res, sig.regEna).reg0 &&
      t.reg1 == SetReg(s, d, out.res, sig.regEna).reg1
  {
  }

  /** The instruction a word holds, or `None` when its opcode is undefined. */
  function Decoded(w: Bits): Option<Mnemonic>
    requires |w| == 13
  {
    CodeToName(OpcodeField(w))
  }

  /**
   * Where each instruction sends `pc`: CALL and B jump to DATA, RET to the
   * old top of stack, BZ to DATA when the register DEST names is exactly
   * `00000000`, and every other instruction falls through.
   */
  lemma NextPcOfCycle(s: MachineState, m: Mnemonic)
    requires ValidState(s) && s.pc < |s.program| && Decoded(s.program[s.pc]) == Some(m)
    ensures Cycle(s).Next?
    ensures var w := s.program[s.pc];
      Cycle(s).state.pc ==
        match m
        case Call => FromStringToInt(DataField(w))
        case B => FromStringToInt(DataField(w))
        case Ret => FromStringToInt(s.stack[0])
        case Bz =>
          if RegisterAt(s, DestField(w)) == Alu.ZeroByte then FromStringToInt(DataField(w)) else s.pc + 1
        case _ => s.pc + 1
  {
  }

  /**
   * CALL pushes the 8-bit rendering of `pc + 1`, RET clears the last slot and
   * keeps the others, and nothing else touches the stack.
   */
  lemma StackOfCycle(s: MachineState, m: Mnemonic)
    requires ValidState(s) && s.pc < |s.program| && Decoded(s.program[s.pc]) == Some(m)
    ensures Cycle(s).Next?
    ensures Cycle(s).state.stack ==
      match m
      case Call => Pushed(s.stack, FromIntToString(s.pc + 1))
      case Ret => Popped(s.stack)
      case _ => s.stack
    ensures m == Call ==> FromStringToInt(Cycle(s).state.stack[0]) == (s.pc + 1) % 256
  {
    if m == Call {
      RenderedWidths(s.pc + 1);
    }
  }

  /**
   * Only the register DEST names can change, and only for the seven
   * instructions that enable the write; OUTPUT changes only for OUT (the
   * register) and DOUT (DATA).
   */
  lemma WritesOfCycle(s: MachineState, m: Mnemonic)
    requires ValidState(s) && s.pc < |s.program| && Decoded(s.program[s.pc]) == Some(m)
    ensures Cycle(s).Next?
    ensures var w := s.program[s.pc]; var t := Cycle(s).state;
      (DestField(w) == '0' ==> t.reg1 == s.reg1) &&
      (DestField(w) != '0' ==> t.reg0 == s.reg0) &&
      (m !in {Add, Sub, And, Ld, In, Xor, InXor} ==> t.reg0 == s.reg0 && t.reg1 == s.reg1) &&
      t.output == match m
        case Out => RegisterAt(s, DestField(w))
        case Dout => DataField(w)
        case _ => s.output
  {
  }

  /**
   * An instruction that enables the register write leaves the ALU result
   * on DATA and the operand in the register DEST names.
   */
  lemma RegisterOfCycle(s: MachineState, m: Mnemonic)
    requires ValidState(s) && s.pc < |s.program| && Decoded(s.program[s.pc]) == Some(m)
    requires Design(m).regEna
    ensures Cycle(s).Next?
    ensures var w := s.program[s.pc]; var d := DestField(w);
      RegisterAt(Cycle(s).state, d) == Alu.Evaluate(Design(m).aluOp, DataField(w), Operand(s, m, d)).res
  {
  }

  /**
   * What ADD and SUB leave in the register DEST names: the sum and the
   * difference of the values modulo 256, where SUB is register minus DATA.
   */
  lemma ArithmeticOfCycle(s: MachineState, m: Mnemonic)
    requires ValidState(s) && s.pc < |s.program| && Decoded(s.program[s.pc]) == Some(m)
    ensures Cycle(s).Next?
    ensures var w := s.program[s.pc]; var d := DestField(w); var data := DataField(w);
      var reg := RegisterAt(s, d); var r := RegisterAt(Cycle(s).state, d);
      (m == Add ==> FromStringToInt(r) == (FromStringToInt(data) + FromStringToInt(reg)) % 256) &&
      (m == Sub ==> FromStringToInt(r) == (FromStringToInt(reg) - FromStringToInt(data)) % 256)
  {
    var w := s.program[s.pc];
    var d := DestField(w);
    var data := DataField(w);
    var reg := RegisterAt(s, d);
    if m == Add || m == Sub {
      RegisterOfCycle(s, m);
      assert Operand(s, m, d) == reg;
      var r := RegisterAt(Cycle(s).state, d);
      if m == Add {
        assert r == Alu.Add(data, reg).res;
      } else {
        assert r == Alu.Sub(data, reg).res;
        Alu.SubComputesRegisterMinusData(data, reg);
      }
    }
  }

  /**
   * What the other writing instructions leave in the register DEST names:
   * LD and IN copy DATA and the input latch, XOR, INXOR and AND are
   * `bitWiseXOR` and `bitWiseAND` with DATA first.
   */
  lemma TransferOfCycle(s: MachineState, m: Mnemonic)
    requires ValidState(s) && s.pc < |s.program| && Decoded(s.program[s.pc]) == Some(m)
    ensures Cycle(s).Next?
    ensures var w := s.program[s.pc]; var d := DestField(w); var data := DataField(w);
      var reg := RegisterAt(s, d); var r := RegisterAt(Cycle(s).state, d);
      (m == Ld ==> r == data) &&
      (m == In ==> r == s.input) &&
      (m == Xor ==> r == Alu.XorBits(data, reg)) &&
      (m == InXor ==> r == Alu.XorBits(data, s.input)) &&
      (m == And ==> r == Alu.AndBits(data, reg))
  {
    var w := s.program[s.pc];
    var d := DestField(w);
    if m in {Ld, In, Xor, InXor, And} {
      RegisterOfCycle(s, m);
    }
  }

  /** Up to `n` cycles, stopping at the first fault. */
  function Run(s: MachineState, n: nat): (r: Step)
    requires ValidState(s)
    ensures r.Next? ==> ValidState(r.state) && r.state.program == s.program
    decreases n
  {
    if n == 0 then Next(s)
    else
      match Cycle(s)
      case Raise(f) => Raise(f)
      case Next(t) => Run(t, n - 1)
  }

  /**
   * CALL to a RET returns to `pc + 1` modulo 256 (the pushed address is 8
   * bits wide). The stack is not restored: the return address stays in slot
   * 0, slots 1 and 2 hold the old slots 0 and 1, and slot 3 is cleared.
   */
  lemma CallThenRet(s: MachineState)
    requires ValidState(s) && s.pc < |s.program| && Decoded(s.program[s.pc]) == Some(Call)
    requires var target := FromStringToInt(DataField(s.program[s.pc]));
      target < |s.program| && Decoded(s.program[target]) == Some(Ret)
    ensures Run(s, 2).Next?
    ensures Run(s, 2).state.pc == (s.pc + 1) % 256
    ensures Run(s, 2).state.stack == [FromIntToString(s.pc + 1)] + s.stack[..2] + [Zeros(8)]
  {
    NextPcOfCycle(s, Call);
    StackOfCycle(s, Call);
    var t := Cycle(s).state;
    NextPcOfCycle(t, Ret);
    StackOfCycle(t, Ret);
    PushThenPop(s.stack, FromIntToString(s.pc + 1));
    assert Run(s, 2) == Run(t, 1);
    assert Run(t, 1) == Run(Cycle(t).state, 0);
  }
}
