/**
 * The `MCU` object: a program store, a program counter, two registers and
 * a 4-slot stack updated in place, plus the input and output latches it
 * shares with the front panel. `RunClock` is proved to do what
 * `Engine.Cycle` says a cycle does.
 */
module Machine {
  import opened Bits
  import opened Options
  import Alu
  import opened Control
  import opened CallStack
  import opened Engine
  import Panel

  /** The program store holds at least this many words; shorter programs are padded. */
  const ProgramSize: nat := 64

  /** The word that pads the program store: CALL 0 on register 0. */
  const EmptyWord: Bits := Zeros(13)

  /** The program store after padding: `p`, then `EmptyWord` up to 64 words. */
  function Padded(p: seq<Bits>): (r: seq<Bits>)
    ensures |r| == if |p| < ProgramSize then ProgramSize else |p|
    ensures r[..|p|] == p
    ensures forall i :: |p| <= i < |r| ==> r[i] == EmptyWord
  {
    if |p| < ProgramSize then p + seq(ProgramSize - |p|, _ => EmptyWord) else p
  }

  /** A program of 13-bit words stays a program of 13-bit words once padded. */
  lemma PaddedWords(p: seq<Bits>)
    requires forall i :: 0 <= i < |p| ==> |p[i]| == 13
    ensures forall i :: 0 <= i < |Padded(p)| ==> |Padded(p)[i]| == 13
  {
    var r := Padded(p);
    forall i | 0 <= i < |r|
      ensures |r[i]| == 13
    {
      if i < |p| {
        assert r[i] == r[..|p|][i];
      }
    }
  }

  /** A store of the padded length that starts with `p` and is `EmptyWord` after it is `Padded(p)`. */
  lemma PaddedUnique(p: seq<Bits>, q: seq<Bits>)
    requires |q| == |Padded(p)| && |p| <= |q| && q[..|p|] == p
    requires forall i :: |p| <= i < |q| ==> q[i] == EmptyWord
    ensures q == Padded(p)
  {
    var r := Padded(p);
    forall i | 0 <= i < |q|
      ensures q[i] == r[i]
    {
      if i < |p| {
        assert q[i] == q[..|p|][i] && r[i] == r[..|p|][i];
      }
    }
  }

  /** `MCU.INPUTDATA` and `MCU.OUTPUTDATA`: the latches the panel and the MCU share. */
  class Latches {
    var input: Bits
    var output: Bits

    constructor ()
      ensures input == Alu.ZeroByte && output == Alu.ZeroByte
    {
      input := Alu.ZeroByte;
      output := Alu.ZeroByte;
    }

    /** `updateInputMCU`: latch the four switches. OUTPUT is left alone. */
    method SetInputs(g2: bool, g1: bool, car: bool, day: bool)
      modifies this
      ensures input == Panel.PackInputs(g2, g1, car, day)
      ensures output == old(output)
    {
      input := Panel.PackInputs(g2, g1, car, day);
    }
  }

  class Mcu {
    var pc: nat
    var program: seq<Bits>
    var reg0: Bits
    var reg1: Bits
    var stack: array<Bits>
    const io: Latches

    /** The machine state a cycle reads and writes. */
    function State(): MachineState
      reads this, stack, io
    {
      MachineState(pc, program, reg0, reg1, stack[..], io.input, io.output)
    }

    ghost predicate Valid()
      reads this, stack, io
    {
      stack.Length == 4 && ValidState(State())
    }

    /**
     * `MCU(addressCache)`: pad the program to 64 words, clear the registers
     * and the stack. A program longer than 64 words fails the assertion
     * after the padding loop, so it is excluded here.
     */
    constructor (p: seq<Bits>, io: Latches)
      requires |p| <= ProgramSize
      requires forall i :: 0 <= i < |p| ==> |p[i]| == 13
      requires |io.input| == 8
      ensures this.io == io && fresh(stack)
      ensures pc == 0 && program == Padded(p)
      ensures reg0 == Alu.ZeroByte && reg1 == Alu.ZeroByte
      ensures stack[..] == [Alu.ZeroByte, Alu.ZeroByte, Alu.ZeroByte, Alu.ZeroByte]
      ensures io.input == old(io.input) && io.output == old(io.output)
      ensures Valid()
    {
      this.io := io;
      stack := new Bits[4](_ => Alu.ZeroByte);
      new;
      assert stack[..] == [Alu.ZeroByte, Alu.ZeroByte, Alu.ZeroByte, Alu.ZeroByte];
      pc := 0;
      program := p;
      while |program| < ProgramSize
        invariant |p| <= |program| <= ProgramSize
        invariant program[..|p|] == p
        invariant forall i :: |p| <= i < |program| ==> program[i] == EmptyWord
        invariant this.io == io && pc == 0 && fresh(stack)
        invariant stack[..] == [Alu.ZeroByte, Alu.ZeroByte, Alu.ZeroByte, Alu.ZeroByte]
        modifies this
        decreases ProgramSize - |program|
      {
        program := program + [EmptyWord];
      }
      PaddedUnique(p, program);
      reg0 := Alu.ZeroByte;
      reg1 := Alu.ZeroByte;
      PaddedWords(p);
    }

    /**
     * `reset`: `pc` and OUTPUT back to zero, registers cleared and a fresh
     * all-zero stack. The program and the input latch are kept.
     */
    method Reset()
      requires Valid()
      modifies this, io
      ensures pc == 0 && io.output == Alu.ZeroByte && io.input == old(io.input)
      ensures reg0 == Alu.ZeroByte && reg1 == Alu.ZeroByte
      ensures fresh(stack) && stack[..] == [Alu.ZeroByte, Alu.ZeroByte, Alu.ZeroByte, Alu.ZeroByte]
      ensures program == old(program)
      ensures Valid()
    {
      pc := 0;
      io.output := Alu.ZeroByte;
      reg0 := Alu.ZeroByte;
      reg1 := Alu.ZeroByte;
      stack := new Bits[4](_ => Alu.ZeroByte);
      assert stack[..] == [Alu.ZeroByte, Alu.ZeroByte, Alu.ZeroByte, Alu.ZeroByte];
    }

    /**
     * `useProgram`: replace the program store and pad it to 64 words.
     * Unlike the constructor there is no length check, and `pc`, the
     * registers and the stack are kept.
     */
    method UseProgram(p: seq<Bits>)
      requires Valid()
      requires forall i :: 0 <= i < |p| ==> |p[i]| == 13
      modifies this
      ensures program == Padded(p)
      ensures pc == old(pc) && reg0 == old(reg0) && reg1 == old(reg1) && stack == old(stack)
      ensures Valid()
    {
      program := p;
      while |program| < ProgramSize
        invariant |p| <= |program| && (|p| < ProgramSize ==> |program| <= ProgramSize)
        invariant |p| >= ProgramSize ==> program == p
        invariant program[..|p|] == p
        invariant forall i :: |p| <= i < |program| ==> program[i] == EmptyWord
        invariant pc == old(pc) && reg0 == old(reg0) && reg1 == old(reg1) && stack == old(stack)
        decreases ProgramSize - |program|
      {
        program := program + [EmptyWord];
      }
      PaddedUnique(p, program);
      PaddedWords(p);
    }

    /** `pushStack(x)`: shift every slot down one place from the bottom up, then put `x` on top. */
    method PushStack(x: Bits)
      requires stack.Length > 0
      modifies stack
      ensures stack[..] == Pushed(old(stack[..]), x)
    {
      var i := stack.Length - 1;
      while i > 0
        invariant 0 <= i < stack.Length
        invariant forall k :: 0 <= k <= i ==> stack[k] == old(stack[k])
        invariant forall k :: i < k < stack.Length ==> stack[k] == old(stack[k - 1])
        decreases i
      {
        stack[i] := stack[i - 1];
        i := i - 1;
      }
      stack[0] := x;
    }

    /**
     * `popStack`: return the last slot and clear it. Its shifting loop runs
     * over `range(len, len - 1)`, which is empty, so it is not written here.
     */
    method PopStack() returns (popped: Bits)
      requires stack.Length > 0
      modifies stack
      ensures popped == old(stack[stack.Length - 1])
      ensures stack[..] == Popped(old(stack[..]))
    {
      popped := stack[stack.Length - 1];
      stack[stack.Length - 1] := Zeros(8);
    }

    /** `setReg(DEST, x, RegEna)`. */
    method SetReg(dest: Bit, x: Bits, regEna: bool)
      modifies this
      ensures State() == Engine.SetReg(old(State()), dest, x, regEna)
      ensures pc == old(pc) && program == old(program) && stack == old(stack)
    {
      if dest == '0' {
        if regEna {
          reg0 := x;
        }
      } else {
        if regEna {
          reg1 := x;
        }
      }
    }

    /** `MCU.stackOp[StackOp](x, self)`: hold, push `x`, or pop and drop the popped value. */
    method RunStackOp(op: StackOp, x: Bits)
      requires stack.Length > 0
      modifies stack
      ensures stack[..] == ApplyStackOp(op, old(stack[..]), x)
    {
      match op {
        case Hold =>
        case Push => PushStack(x);
        case Pop => var _ := PopStack();
      }
    }

    /**
     * The `if` chain of `runClock` on the AddrSrc field. `src` is the
     * selector the two characters encode; `top` is slot 0 as read before
     * the stack operation.
     */
    static method SelectPc(addrSrc: Bits, ghost src: AddrSrc, currentPc: nat, data: Bits,
                           topOfStack: Bits, z: bool) returns (nextPc: nat)
      requires addrSrc == AddrSrcCode(src) && |data| > 0 && |topOfStack| > 0
      ensures nextPc == NextPc(src, currentPc, data, topOfStack, z)
    {
      nextPc := currentPc;
      if addrSrc == AddrDataPcZ {
        if z {
          nextPc := FromStringToInt(data);
        } else {
          nextPc := nextPc + 1;
        }
      } else if addrSrc == AddrData {
        nextPc := FromStringToInt(data);
      } else if addrSrc == AddrTos {
        nextPc := FromStringToInt(topOfStack);
      } else if addrSrc == AddrPcPlusOne {
        nextPc := nextPc + 1;
      }
    }

    /**
     * The slicing of the control word in `runClock`, with the `MCU.stackOp`
     * and `MCU.alu` lookups: each field gives back the signal of the
     * instruction the word encodes.
     */
    static method SplitControlWord(code: Bits, ghost sig: Signals)
      returns (stackOp: StackOp, addrSrc: Bits, aluOp: Alu.AluOp, aluSrc: Bits, regEna: bool, outEna: bool)
      requires code == Encode(sig)
      ensures stackOp == sig.stackOp && addrSrc == AddrSrcCode(sig.addrSrc) && aluOp == sig.aluOp
      ensures (aluSrc == AluSrcReg <==> sig.aluSrc == Reg)
      ensures regEna == sig.regEna && outEna == sig.outEna
    {
      DecodeFields(sig);
      StackOpTableRoundTrip(sig.stackOp);
      AluTableRoundTrip(sig.aluOp);
      stackOp := StackOpTable(code[0..2]).value;
      addrSrc := code[2..4];
      aluOp := AluTable(code[4..7]).value;
      aluSrc := [code[7]];
      regEna := code[8] == '1';
      outEna := code[9] == '1';
    }

    /**
     * The writes of `runClock` once the ALU has produced `res` and `z`:
     * write back, OUTPUT, the stack operation with `pc + 1`, and the next
     * `pc` chosen by the AddrSrc field `addrSrc`, which encodes `src`.
     */
    method Commit(dest: Bit, res: Bits, z: bool, data: Bits, stackOp: StackOp,
                  addrSrc: Bits, ghost src: AddrSrc, regEna: bool, outEna: bool)
      requires stack.Length > 0 && |stack[0]| > 0 && |data| > 0 && addrSrc == AddrSrcCode(src)
      modifies this, stack, io
      ensures stack == old(stack)
      ensures State() == Engine.SetReg(old(State()), dest, res, regEna).(
        pc := NextPc(src, old(pc), data, old(stack[0]), z),
        stack := ApplyStackOp(stackOp, old(stack[..]), FromIntToString(old(pc) + 1)),
        output := if outEna then res else old(io.output))
    {
      var currentPc := pc;
      SetReg(dest, res, regEna);
      if outEna {
        io.output := res;
      }
      var topOfStack := stack[0];
      RunStackOp(stackOp, FromIntToString(pc + 1));
      var nextPc := SelectPc(addrSrc, src, currentPc, data, topOfStack, z);
      pc := nextPc;
    }

    /**
     * The part of `runClock` after the control word is split: the ALU on
     * DATA and the register or the input latch, then the writes. `m` is the
     * instruction the word at `pc` decodes to.
     */
    method Execute(dest: Bit, data: Bits, stackOp: StackOp, addrSrc: Bits, aluOp: Alu.AluOp,
                   aluSrc: Bits, regEna: bool, outEna: bool, ghost m: Mnemonic)
      requires Valid() && pc < |program| && Decoded(program[pc]) == Some(m)
      requires dest == DestField(program[pc]) && data == DataField(program[pc])
      requires stackOp == Design(m).stackOp && addrSrc == AddrSrcCode(Design(m).addrSrc)
      requires aluOp == Design(m).aluOp && (aluSrc == AluSrcReg <==> Design(m).aluSrc == Reg)
      requires regEna == Design(m).regEna && outEna == Design(m).outEna
      modifies this, stack, io
      ensures stack == old(stack)
      ensures State() == Engine.Execute(old(State()), m)
    {
      ghost var s := State();
      var currentRegData := if dest == '0' then reg0 else reg1;
      var currentInputData := io.input;
      var b := if aluSrc == AluSrcReg then currentRegData else currentInputData;
      assert b == Operand(s, m, dest);
      var out := Alu.Evaluate(aluOp, data, b);
      Commit(dest, out.res, out.zero, data, stackOp, addrSrc, Design(m).addrSrc, regEna, outEna);
      ExecuteFields(s, m);
    }

    /**
     * `runClock`: one cycle, carried out on the object in place. It ends
     * in the state `Engine.Cycle` computes, or reports the fault that cycle
     * raises and leaves every field as it was.
     */
    method RunClock() returns (fault: Option<Fault>)
      requires Valid()
      modifies this, stack, io
      ensures stack == old(stack)
      ensures Valid()
      ensures match Cycle(old(State()))
        case Next(t) => fault == None && State() == t
        case Raise(f) => fault == Some(f) && State() == old(State())
    {
      var currentPc := pc;
      if currentPc >= |program| {
        return Some(PcOutOfRange);
      }
      var addr := program[currentPc];
      var opcode := addr[0..4];
      var dest := addr[4];
      var data := addr[5..];

      var fullCode := GetCode(opcode);
      if fullCode.None? {
        return Some(InvalidOpcode);
      }
      ghost var m := CodeToName(opcode).value;
      GetCodeFields(opcode, m);
      var stackOp, addrSrc, aluOp, aluSrc, regEna, outEna := SplitControlWord(fullCode.value, Design(m));
      Execute(dest, data, stackOp, addrSrc, aluOp, aluSrc, regEna, outEna, m);
      fault := None;
    }
  }
}
