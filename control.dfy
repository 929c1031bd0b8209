/**
 * The two-stage instruction decoder: `codeToName` maps a 4-bit opcode to a
 * mnemonic, and `getCode` maps the mnemonic to a 10-character control word
 * made of the named constants `STACK_OP_*`, `ADDR_*`, `ALUOP_*`, `ALUSRC_*`
 * and the two enable bits. The control word is kept both as the string the
 * simulator slices and as the `Signals` record it stands for.
 */
module Control {
  import opened Bits
  import opened Options
  import Alu

  /** The thirteen mnemonics of `codeToName`, in opcode order. */
  datatype Mnemonic = Call | Ret | Bz | B | Add | Sub | And | Ld | Out | In | Dout | Xor | InXor

  const Names: seq<Mnemonic> := [Call, Ret, Bz, B, Add, Sub, And, Ld, Out, In, Dout, Xor, InXor]

  /** The numeric opcode of a mnemonic: its position in `codeToName`. */
  function Opcode(m: Mnemonic): (r: nat)
    ensures r < |Names| && Names[r] == m
  {
    match m
    case Call => 0
    case Ret => 1
    case Bz => 2
    case B => 3
    case Add => 4
    case Sub => 5
    case And => 6
    case Ld => 7
    case Out => 8
    case In => 9
    case Dout => 10
    case Xor => 11
    case InXor => 12
  }

  /** The 4-character key of `codeToName` for a mnemonic. */
  function OpcodeOf(m: Mnemonic): (r: Bits)
    ensures |r| == 4
  {
    FromIntToString(Opcode(m), 4)
  }

  /**
   * `codeToName[op]`: the keys are the 4-character renderings of 0 to 12, so a
   * key matches exactly when `op` has 4 characters and a value below 13.
   * `None` is the `KeyError` the dictionary raises.
   */
  function CodeToName(op: Bits): (r: Option<Mnemonic>)
    ensures r.Some? ==> |op| == 4 && Opcode(r.value) == FromStringToInt(op)
  {
    if |op| == 4 && FromStringToInt(op) < |Names| then
      var m := Names[FromStringToInt(op)];
      assert Opcode(m) == FromStringToInt(op) by {
        OpcodeInjective(m, Names[Opcode(m)]);
      }
      Some(m)
    else
      None
  }

  lemma OpcodeInjective(m: Mnemonic, n: Mnemonic)
    requires Opcode(m) == Opcode(n)
    ensures m == n
  {
  }

  /** Every mnemonic's key looks it up again. */
  lemma OpcodeRoundTrip(m: Mnemonic)
    ensures CodeToName(OpcodeOf(m)) == Some(m)
  {
    Pow2Widths();
    IntStringRoundTrip(Opcode(m), 4);
  }

  /** A successful lookup was made with that mnemonic's key and no other string. */
  lemma OpcodeUnique(op: Bits, m: Mnemonic)
    requires CodeToName(op) == Some(m)
    ensures op == OpcodeOf(m)
  {
    StringIntRoundTrip(op);
  }

  /** `codeToName` as written: the thirteen keys and what they name. */
  lemma CodeToNameTable()
    ensures CodeToName("0000") == Some(Call) && CodeToName("0001") == Some(Ret)
    ensures CodeToName("0010") == Some(Bz) && CodeToName("0011") == Some(B)
    ensures CodeToName("0100") == Some(Add) && CodeToName("0101") == Some(Sub)
    ensures CodeToName("0110") == Some(And) && CodeToName("0111") == Some(Ld)
    ensures CodeToName("1000") == Some(Out) && CodeToName("1001") == Some(In)
    ensures CodeToName("1010") == Some(Dout) && CodeToName("1011") == Some(Xor)
    ensures CodeToName("1100") == Some(InXor)
  {
    KeyNames("0000", Call);
    KeyNames("0001", Ret);
    KeyNames("0010", Bz);
    KeyNames("0011", B);
    KeyNames("0100", Add);
    KeyNames("0101", Sub);
    KeyNames("0110", And);
    KeyNames("0111", Ld);
    KeyNames("1000", Out);
    KeyNames("1001", In);
    KeyNames("1010", Dout);
    KeyNames("1011", Xor);
    KeyNames("1100", InXor);
  }

  lemma KeyNames(s: Bits, m: Mnemonic)
    requires |s| == 4
    requires 8 * DigitValue(s[0]) + 4 * DigitValue(s[1]) + 2 * DigitValue(s[2]) + DigitValue(s[3]) == Opcode(m)
    ensures CodeToName(s) == Some(m)
  {
    ValueOfNibble(s);
  }

  /** The three 4-bit opcodes that `codeToName` lacks raise `KeyError`. */
  lemma UndefinedOpcodes()
    ensures CodeToName("1101") == None && CodeToName("1110") == None && CodeToName("1111") == None
  {
    ValueOfNibble("1101");
    ValueOfNibble("1110");
    ValueOfNibble("1111");
  }

  lemma ValueOfNibble(s: Bits)
    requires |s| == 4
    ensures FromStringToInt(s) ==
      8 * DigitValue(s[0]) + 4 * DigitValue(s[1]) + 2 * DigitValue(s[2]) + DigitValue(s[3])
  {
    assert s[..3][..2] == s[..2];
    assert s[..2][..1] == s[..1];
    assert BinaryValue(s[..2]) == 2 * DigitValue(s[0]) + DigitValue(s[1]);
    assert BinaryValue(s[..3]) == 2 * BinaryValue(s[..2]) + DigitValue(s[2]);
  }

  // ---------------------------------------------------------------------
  // The fields of a control word

  datatype StackOp = Hold | Push | Pop
  datatype AddrSrc = PcPlusOne | Tos | Data | DataIfZero
  datatype AluSrc = Input | Reg

  /** One decoded control word. */
  datatype Signals = Signals(stackOp: StackOp, addrSrc: AddrSrc, aluOp: Alu.AluOp,
                             aluSrc: AluSrc, regEna: bool, outEna: bool)

  const StackOpPop: Bits := "10"
  const StackOpPush: Bits := "01"
  const StackOpHold: Bits := "00"

  const AddrPcPlusOne: Bits := "00"
  const AddrTos: Bits := "01"
  const AddrData: Bits := "10"
  /** Branch to DATA when the ALU's zero flag is set, else fall through. */
  const AddrDataPcZ: Bits := "11"

  const AluSrcInput: Bits := "0"
  const AluSrcReg: Bits := "1"

  const AluOpAPlusB: Bits := "010"
  const AluOpAMinusB: Bits := "011"
  const AluOpA: Bits := "000"
  const AluOpB: Bits := "001"
  const AluOpAAndB: Bits := "100"
  const AluOpAXorB: Bits := "110"
  const AluOpZero: Bits := "111"

  function StackOpCode(op: StackOp): (r: Bits)
    ensures |r| == 2
  {
    match op
    case Hold => StackOpHold
    case Push => StackOpPush
    case Pop => StackOpPop
  }

  function AddrSrcCode(src: AddrSrc): (r: Bits)
    ensures |r| == 2
  {
    match src
    case PcPlusOne => AddrPcPlusOne
    case Tos => AddrTos
    case Data => AddrData
    case DataIfZero => AddrDataPcZ
  }

  function AluOpCode(op: Alu.AluOp): (r: Bits)
    ensures |r| == 3
  {
    match op
    case APlusB => AluOpAPlusB
    case AMinusB => AluOpAMinusB
    case PassA => AluOpA
    case PassB => AluOpB
    case AAndB => AluOpAAndB
    case AXorB => AluOpAXorB
    case Zero => AluOpZero
  }

  function AluSrcCode(src: AluSrc): (r: Bits)
    ensures |r| == 1
  {
    match src
    case Input => AluSrcInput
    case Reg => AluSrcReg
  }

  function FlagCode(b: bool): (r: Bits)
    ensures |r| == 1
  {
    if b then "1" else "0"
  }

  /** The keys of `MCU.stackOp`; `None` is a `KeyError`. */
  function StackOpTable(key: Bits): (r: Option<StackOp>)
    ensures r.Some? ==> StackOpCode(r.value) == key
  {
    if key == StackOpHold then Some(Hold)
    else if key == StackOpPush then Some(Push)
    else if key == StackOpPop then Some(Pop)
    else None
  }

  /** The keys of `MCU.alu`; `None` is a `KeyError`. */
  function AluTable(key: Bits): (r: Option<Alu.AluOp>)
    ensures r.Some? ==> AluOpCode(r.value) == key
  {
    if key == AluOpAPlusB then Some(Alu.APlusB)
    else if key == AluOpAMinusB then Some(Alu.AMinusB)
    else if key == AluOpA then Some(Alu.PassA)
    else if key == AluOpB then Some(Alu.PassB)
    else if key == AluOpAAndB then Some(Alu.AAndB)
    else if key == AluOpAXorB then Some(Alu.AXorB)
    else if key == AluOpZero then Some(Alu.Zero)
    else None
  }

  /** Every stack operation's code is a key of `MCU.stackOp` that names it. */
  lemma StackOpTableRoundTrip(op: StackOp)
    ensures StackOpTable(StackOpCode(op)) == Some(op)
  {
  }

  /** Every ALU operation's code is a key of `MCU.alu` that names it. */
  lemma AluTableRoundTrip(op: Alu.AluOp)
    ensures AluTable(AluOpCode(op)) == Some(op)
  {
  }

  /** The four `ADDR_*` codes are distinct, so the `if` chain of `runClock` tells them apart. */
  lemma AddrSrcCodeInjective(x: AddrSrc, y: AddrSrc)
    requires AddrSrcCode(x) == AddrSrcCode(y)
    ensures x == y
  {
  }

  /** The control word: the six fields concatenated, 10 characters. */
  function Encode(sig: Signals): (r: Bits)
    ensures |r| == 10
  {
    StackOpCode(sig.stackOp) + AddrSrcCode(sig.addrSrc) + AluOpCode(sig.aluOp) +
    AluSrcCode(sig.aluSrc) + FlagCode(sig.regEna) + FlagCode(sig.outEna)
  }

  /** Slicing a control word as `runClock` does gives back each field's code. */
  lemma DecodeFields(sig: Signals)
    ensures var w := Encode(sig);
      w[0..2] == StackOpCode(sig.stackOp) && w[2..4] == AddrSrcCode(sig.addrSrc) &&
      w[4..7] == AluOpCode(sig.aluOp) && [w[7]] == AluSrcCode(sig.aluSrc) &&
      (w[8] == '1' <==> sig.regEna) && (w[9] == '1' <==> sig.outEna)
  {
    var w := Encode(sig);
    var p := StackOpCode(sig.stackOp);
    var q := AddrSrcCode(sig.addrSrc);
    var o := AluOpCode(sig.aluOp);
    assert w == p + q + o + AluSrcCode(sig.aluSrc) + FlagCode(sig.regEna) + FlagCode(sig.outEna);
    assert w[0..2] == p;
    assert w[2..4] == q;
    assert w[4..7] == o;
  }

  /**
   * The `decoder` dictionary of `getCode`. Only CALL pushes and only RET pops;
   * the register is written by the seven ALU instructions and the OUTPUT
   * latch by OUT and DOUT, never both by one instruction.
   */
  function Design(m: Mnemonic): (r: Signals)
    ensures r.stackOp == Push <==> m == Call
    ensures r.stackOp == Pop <==> m == Ret
    ensures r.regEna <==> m in {Add, Sub, And, Ld, In, Xor, InXor}
    ensures r.outEna <==> m in {Out, Dout}
    ensures r.aluSrc == Input <==> m in {In, InXor}
  {
    match m
    case Call => Signals(Push, Data, Alu.Zero, Reg, false, false)
    case Ret => Signals(Pop, Tos, Alu.Zero, Reg, false, false)
    case Bz => Signals(Hold, DataIfZero, Alu.PassB, Reg, false, false)
    case B => Signals(Hold, Data, Alu.Zero, Reg, false, false)
    case Add => Signals(Hold, PcPlusOne, Alu.APlusB, Reg, true, false)
    case Sub => Signals(Hold, PcPlusOne, Alu.AMinusB, Reg, true, false)
    case And => Signals(Hold, PcPlusOne, Alu.AAndB, Reg, true, false)
    case Ld => Signals(Hold, PcPlusOne, Alu.PassA, Reg, true, false)
    case Out => Signals(Hold, PcPlusOne, Alu.PassB, Reg, false, true)
    case In => Signals(Hold, PcPlusOne, Alu.PassB, Input, true, false)
    case Dout => Signals(Hold, PcPlusOne, Alu.PassA, Reg, false, true)
    case Xor => Signals(Hold, PcPlusOne, Alu.AXorB, Reg, true, false)
    case InXor => Signals(Hold, PcPlusOne, Alu.AXorB, Input, true, false)
  }

  /**
   * `getCode(OPCODE)`: the control word of the opcode's mnemonic; `None` for
   * the three undefined opcodes and any string that is not a 4-bit key.
   */
  function GetCode(op: Bits): (r: Option<Bits>)
    ensures r.Some? <==> |op| == 4 && FromStringToInt(op) < 13
    ensures r.Some? ==> |r.value| == 10
  {
    match CodeToName(op)
    case None => None
    case Some(m) => Some(Encode(Design(m)))
  }

  /** The control word `getCode` returns decodes to its mnemonic's signals. */
  lemma GetCodeFields(op: Bits, m: Mnemonic)
    requires CodeToName(op) == Some(m)
    ensures GetCode(op) == Some(Encode(Design(m)))
  {
  }

  /** The ten-character control word of every instruction, as the `decoder` dictionary spells it. */
  lemma ControlWordTable(m: Mnemonic)
    ensures Encode(Design(m)) == match m
      case Call => "0110111100"
      case Ret => "1001111100"
      case Bz => "0011001100"
      case B => "0010111100"
      case Add => "0000010110"
      case Sub => "0000011110"
      case And => "0000100110"
      case Ld => "0000000110"
      case Out => "0000001101"
      case In => "0000001010"
      case Dout => "0000000101"
      case Xor => "0000110110"
      case InXor => "0000110010"
  {
    match m {
      case Call =>
      case Ret =>
      case Bz =>
      case B =>
      case Add =>
      case Sub =>
      case And =>
      case Ld =>
      case Out =>
      case In =>
      case Dout =>
      case Xor =>
      case InXor =>
    }
  }
}
