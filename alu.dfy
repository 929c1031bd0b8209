/**
 * The arithmetic-logic unit: the entries of the `MCU.alu` dispatch table and
 * the helpers they call (`twosComp`, `bitWiseXOR`, `bitWiseAND`). Operand `a`
 * is always the instruction's DATA field and operand `b` the register or the
 * input latch. Every entry returns the result string and a zero flag.
 */
module Alu {
  import opened Bits

  datatype AluOut = AluOut(res: Bits, zero: bool)

  /** The seven operations, named after the `ALUOP_*` constants. */
  datatype AluOp = APlusB | AMinusB | PassA | PassB | AAndB | AXorB | Zero

  const ZeroByte: Bits := Zeros(8)
  const OneByte: Bits := Zeros(7) + ['1']

  // ---------------------------------------------------------------------
  // Modular arithmetic helpers

  /** Two numbers that differ by a multiple of `m` have the same remainder. */
  lemma ModCongruent(x: int, y: int, k: int, m: int)
    requires m > 0 && x == y + k * m
    ensures x % m == y % m
  {
    var q, r := y / m, y % m;
    assert y == q * m + r;
    assert x == (q + k) * m + r;
    DivModUnique(q + k, r, m);
  }

  // ---------------------------------------------------------------------
  // ADD ('010')

  /**
   * The ADD entry: the sum rendered on 8 bits, and a zero flag computed on
   * the untruncated sum, so an overflow to 0 does not raise it.
   */
  function Add(a: Bits, b: Bits): (r: AluOut)
    requires |a| > 0 && |b| > 0
    ensures |r.res| == 8
    ensures FromStringToInt(r.res) == (FromStringToInt(a) + FromStringToInt(b)) % 256
    ensures r.zero <==> FromStringToInt(a) == 0 && FromStringToInt(b) == 0
  {
    var sum := FromStringToInt(a) + FromStringToInt(b);
    RenderedWidths(sum);
    AluOut(FromIntToString(sum), sum == 0)
  }

  /**
   * Overflow never raises the zero flag: when the operands add up to 256 (for
   * instance 0x80 + 0x80) the result is `00000000` and the flag is clear.
   */
  lemma AddOverflowKeepsZeroFlagClear(a: Bits, b: Bits)
    requires |a| > 0 && |b| > 0
    requires FromStringToInt(a) + FromStringToInt(b) == 256
    ensures Add(a, b) == AluOut(ZeroByte, false)
  {
    var r := Add(a, b);
    WrapArith(FromStringToInt(a) + FromStringToInt(b), FromStringToInt(r.res));
    ValueOfZeroByte();
    ValueInjective(r.res, ZeroByte);
  }

  lemma WrapArith(sum: int, t: int)
    requires sum == 256 && t == sum % 256
    ensures t == 0
  {
  }

  lemma ValueOfZeroByte()
    ensures FromStringToInt(ZeroByte) == 0
  {
    ValueOfByte(ZeroByte);
  }

  /** A byte is below 256. */
  lemma ByteBound(s: Bits)
    requires |s| == 8
    ensures FromStringToInt(s) < 256
  {
    Pow2Widths();
  }

  // ---------------------------------------------------------------------
  // twosComp and SUB ('011')

  /** The loop of `twosComp` that flips every character. */
  function Complement(s: Bits): (r: Bits)
    ensures |r| == |s|
    ensures forall i :: 0 <= i < |s| ==> r[i] != s[i]
  {
    seq(|s|, i requires 0 <= i < |s| => if s[i] == '0' then '1' else '0')
  }

  lemma {:induction false} ValueOfComplement(s: Bits)
    requires |s| > 0
    ensures FromStringToInt(Complement(s)) == Pow2(|s|) - 1 - FromStringToInt(s)
  {
    var c := Complement(s);
    if |s| > 1 {
      var s' := s[..|s| - 1];
      assert c[..|c| - 1] == Complement(s');
      ValueOfComplement(s');
    }
  }

  /**
   * `twosComp`: flip every bit, add `00000001` with the ADD entry and keep the
   * last 8 characters. ADD always renders 8 characters, so that final slice
   * keeps the whole sum.
   */
  function TwosComp(s: Bits): (r: Bits)
    requires |s| > 0
    ensures |r| == 8
  {
    Add(Complement(s), OneByte).res
  }

  /** On a byte, the two's complement is the additive inverse modulo 256. */
  lemma TwosCompOfByte(s: Bits)
    requires |s| == 8
    ensures FromStringToInt(TwosComp(s)) == (256 - FromStringToInt(s)) % 256
    ensures FromStringToInt(TwosComp(s)) == 0 <==> FromStringToInt(s) == 0
  {
    ByteBound(s);
    ComplementOfByte(s);
    TwosCompValue(s);
    assert FromStringToInt(TwosComp(s)) == (FromStringToInt(Complement(s)) + 1) % 256;
    assert FromStringToInt(Complement(s)) == 255 - FromStringToInt(s);
    assert FromStringToInt(s) < 256;
    TwosCompArith(FromStringToInt(s), FromStringToInt(Complement(s)), FromStringToInt(TwosComp(s)));
  }

  /** The value of `twosComp` is the complement's value plus one, modulo 256. */
  lemma TwosCompValue(s: Bits)
    requires |s| > 0
    ensures FromStringToInt(TwosComp(s)) == (FromStringToInt(Complement(s)) + 1) % 256
  {
    IncrementValue(Complement(s));
  }

  lemma IncrementValue(c: Bits)
    requires |c| > 0
    ensures FromStringToInt(Add(c, OneByte).res) == (FromStringToInt(c) + 1) % 256
  {
    ValueOfOneByte();
  }

  lemma ValueOfOneByte()
    ensures FromStringToInt(OneByte) == 1
  {
    ValueOfByte(OneByte);
  }

  lemma ComplementOfByte(s: Bits)
    requires |s| == 8
    ensures FromStringToInt(Complement(s)) == 255 - FromStringToInt(s)
  {
    ValueOfComplement(s);
    Pow2Widths();
  }

  lemma TwosCompArith(v: int, cv: int, t: int)
    requires 0 <= v < 256 && cv == 255 - v && t == (cv + 1) % 256
    ensures t == (256 - v) % 256
    ensures t == 0 <==> v == 0
  {
    if v > 0 {
      ModOfSmall(256 - v, 256);
    }
  }

  /** The SUB entry: `ADD(twosComp(a), b)`, complementing operand `a` (DATA). */
  function Sub(a: Bits, b: Bits): (r: AluOut)
    requires |a| > 0 && |b| > 0
    ensures |r.res| == 8
  {
    Add(TwosComp(a), b)
  }

  /**
   * For a byte of DATA, SUB computes `b - a` modulo 256, that is register
   * minus DATA, and its zero flag is set only when both operands are zero.
   */
  lemma SubComputesRegisterMinusData(a: Bits, b: Bits)
    requires |a| == 8 && |b| > 0
    ensures FromStringToInt(Sub(a, b).res) == (FromStringToInt(b) - FromStringToInt(a)) % 256
    ensures Sub(a, b).zero <==> FromStringToInt(a) == 0 && FromStringToInt(b) == 0
  {
    ByteBound(a);
    TwosCompOfByte(a);
    SubValue(a, b);
    assert FromStringToInt(Sub(a, b).res) == (FromStringToInt(TwosComp(a)) + FromStringToInt(b)) % 256;
    assert FromStringToInt(TwosComp(a)) == (256 - FromStringToInt(a)) % 256;
    SubArith(FromStringToInt(a), FromStringToInt(b), FromStringToInt(TwosComp(a)), FromStringToInt(Sub(a, b).res));
  }

  /** SUB adds the two's complement of DATA to the register with the ADD entry. */
  lemma SubValue(a: Bits, b: Bits)
    requires |a| > 0 && |b| > 0
    ensures FromStringToInt(Sub(a, b).res) == (FromStringToInt(TwosComp(a)) + FromStringToInt(b)) % 256
    ensures Sub(a, b).zero <==> FromStringToInt(TwosComp(a)) == 0 && FromStringToInt(b) == 0
  {
  }

  lemma SubArith(va: int, vb: int, t: int, r: int)
    requires 0 <= va < 256 && 0 <= vb
    requires t == (256 - va) % 256 && r == (t + vb) % 256
    ensures r == (vb - va) % 256
  {
    if va == 0 {
      ModCongruent(256, 0, 1, 256);
    } else {
      ModOfSmall(256 - va, 256);
      ModCongruent(256 - va + vb, vb - va, 1, 256);
    }
  }

  // ---------------------------------------------------------------------
  // bitWiseXOR ('110')

  /** The loop of `bitWiseXOR`; it reads `b` only at the indices of `a`. */
  function XorBits(a: Bits, b: Bits): (r: Bits)
    requires |a| <= |b|
    ensures |r| == |a|
    ensures forall i :: 0 <= i < |a| ==> (r[i] == '1' <==> a[i] != b[i])
  {
    if |a| == 0 then []
    else XorBits(a[..|a| - 1], b) + [if a[|a| - 1] == b[|a| - 1] then '0' else '1']
  }

  /**
   * `bitWiseXOR`: positional exclusive or over the width of `a`; the flag is
   * set exactly when `a` agrees with the first |a| characters of `b`.
   */
  function BitwiseXor(a: Bits, b: Bits): (r: AluOut)
    requires |a| <= |b|
    ensures |r.res| == |a|
    ensures r.zero <==> a == b[..|a|]
  {
    var res := XorBits(a, b);
    assert '1' !in res <==> a == b[..|a|] by {
      if '1' !in res {
        assert forall i :: 0 <= i < |a| ==> a[i] == b[..|a|][i];
      }
      if a == b[..|a|] {
        assert forall i :: 0 <= i < |a| ==> res[i] == '0';
      }
    }
    AluOut(res, '1' !in res)
  }

  /** Exclusive or with the same operand twice gives the first operand back. */
  lemma XorInvolution(a: Bits, b: Bits)
    requires |a| == |b|
    ensures XorBits(XorBits(a, b), b) == a
  {
    var x := XorBits(XorBits(a, b), b);
    forall i | 0 <= i < |a| ensures x[i] == a[i] {
    }
  }

  // ---------------------------------------------------------------------
  // bitWiseAND ('100')

  /** One pass of the inner loop of `bitWiseAND`: `x` against every bit of `b`. */
  function AndRow(x: Bit, b: Bits): (r: Bits)
    ensures |r| == |b|
    ensures forall j :: 0 <= j < |b| ==> (r[j] == '1' <==> x == '1' && b[j] == '1')
  {
    if |b| == 0 then []
    else AndRow(x, b[..|b| - 1]) + [if x == '1' && b[|b| - 1] == '1' then '1' else '0']
  }

  /** The two nested loops of `bitWiseAND`: one row per character of `a`. */
  function AndBits(a: Bits, b: Bits): (r: Bits)
    ensures |r| == |a| * |b|
  {
    if |a| == 0 then []
    else
      var prefix := AndBits(a[..|a| - 1], b);
      assert |prefix| + |b| == (|a| - 1) * |b| + |b| == |a| * |b|;
      prefix + AndRow(a[|a| - 1], b)
  }

  lemma MulMonotone(x: nat, y: nat, n: nat)
    requires x <= y
    ensures x * n <= y * n
  {
  }

  /**
   * `bitWiseAND` is a cross product, not a positional and: the character at
   * `i * |b| + j` is '1' exactly when `a[i]` and `b[j]` are both '1'.
   */
  lemma {:induction false} AndBitsAt(a: Bits, b: Bits, i: nat, j: nat)
    requires i < |a| && j < |b|
    ensures i * |b| + j < |AndBits(a, b)|
    ensures AndBits(a, b)[i * |b| + j] == '1' <==> a[i] == '1' && b[j] == '1'
  {
    var a' := a[..|a| - 1];
    var prefix := AndBits(a', b);
    var row := AndRow(a[|a| - 1], b);
    assert AndBits(a, b) == prefix + row;
    MulMonotone(i + 1, |a|, |b|);
    if i < |a| - 1 {
      MulMonotone(i + 1, |a| - 1, |b|);
      AndBitsAt(a', b, i, j);
    } else {
      assert i * |b| + j == |prefix| + j;
    }
  }

  /** The result holds a '1' exactly when both operands do. */
  lemma {:induction false} AndBitsHasOne(a: Bits, b: Bits)
    ensures '1' in AndBits(a, b) <==> '1' in a && '1' in b
  {
    if |a| > 0 {
      var a' := a[..|a| - 1];
      AndBitsHasOne(a', b);
      AndRowHasOne(a[|a| - 1], b);
      assert a == a' + [a[|a| - 1]];
    }
  }

  lemma {:induction false} AndRowHasOne(x: Bit, b: Bits)
    ensures '1' in AndRow(x, b) <==> x == '1' && '1' in b
  {
    if |b| > 0 {
      var b' := b[..|b| - 1];
      AndRowHasOne(x, b');
      assert b == b' + [b[|b| - 1]];
    }
  }

  /** `bitWiseAND`: the cross product and a flag that is set when it has no '1'. */
  function BitwiseAnd(a: Bits, b: Bits): (r: AluOut)
    ensures |r.res| == |a| * |b|
    ensures r.zero <==> '1' !in a || '1' !in b
  {
    var res := AndBits(a, b);
    AndBitsHasOne(a, b);
    AluOut(res, '1' !in res)
  }

  // ---------------------------------------------------------------------
  // The dispatch table

  /** What each entry needs of its operands so that Python does not raise. */
  predicate Defined(op: AluOp, a: Bits, b: Bits)
  {
    match op
    case APlusB => |a| > 0 && |b| > 0
    case AMinusB => |a| > 0 && |b| > 0
    case AXorB => |a| <= |b|
    case _ => true
  }

  /**
   * One ALU evaluation. PASS-A and PASS-B compare the operand with the literal
   * `00000000`, so a zero operand of another width does not raise the flag;
   * ZERO always raises it.
   */
  function Evaluate(op: AluOp, a: Bits, b: Bits): (r: AluOut)
    requires Defined(op, a, b)
    ensures |a| == 8 && |b| >= 8 ==> |r.res| >= 8
  {
    match op
    case APlusB => Add(a, b)
    case AMinusB => Sub(a, b)
    case PassA => AluOut(a, a == ZeroByte)
    case PassB => AluOut(b, b == ZeroByte)
    case AAndB => BitwiseAnd(a, b)
    case AXorB => BitwiseXor(a, b)
    case Zero => AluOut(ZeroByte, true)
  }

  /**
   * The zero flag never lies about a result: whenever an entry raises it, the
   * result reads as 0. For the two bitwise entries the converse holds too;
   * for ADD it does not (see `AddOverflowKeepsZeroFlagClear`).
   */
  lemma ZeroFlagSound(op: AluOp, a: Bits, b: Bits)
    requires Defined(op, a, b) && |a| == 8 && |b| >= 8
    ensures |Evaluate(op, a, b).res| > 0
    ensures Evaluate(op, a, b).zero ==> FromStringToInt(Evaluate(op, a, b).res) == 0
    ensures op in {AAndB, AXorB} ==>
      (Evaluate(op, a, b).zero <==> FromStringToInt(Evaluate(op, a, b).res) == 0)
  {
    var r := Evaluate(op, a, b);
    match op {
      case APlusB =>
      case AMinusB =>
        SubComputesRegisterMinusData(a, b);
      case PassA =>
        ValueOfZeroByte();
      case PassB =>
        ValueOfZeroByte();
      case AAndB =>
        ValueZeroIffNoOne(r.res);
      case AXorB =>
        ValueZeroIffNoOne(r.res);
      case Zero =>
        ValueOfZeroByte();
    }
  }
}
