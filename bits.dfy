/**
 * Bit strings as the simulator handles them: Python strings made only of the
 * characters '0' and '1', most significant bit first, of any length.
 * `FromStringToInt` is `int(s, 2)` and `FromIntToString` is
 * `bin(i)[2:].zfill(size)[-size:]`.
 */
module Bits {

  /** One binary digit, kept as the character the source stores. */
  type Bit = c: char | c == '0' || c == '1' witness '0'

  type Bits = seq<Bit>

  function Pow2(n: nat): (r: nat)
    ensures r >= 1
  {
    if n == 0 then 1 else 2 * Pow2(n - 1)
  }

  function DigitValue(c: Bit): (r: nat)
    ensures r < 2
  {
    if c == '1' then 1 else 0
  }

  function DigitOf(d: nat): (c: Bit)
    requires d < 2
    ensures DigitValue(c) == d
  {
    if d == 1 then '1' else '0'
  }

  /** A string of `n` zero characters (`'0' * n`). */
  function Zeros(n: nat): (r: Bits)
    ensures |r| == n
    ensures forall i :: 0 <= i < n ==> r[i] == '0'
  {
    seq(n, _ => '0')
  }

  /**
   * `int(s, 2)`: the value of a non-empty binary string, most significant
   * bit first. Python rejects the empty string, hence the precondition.
   */
  function FromStringToInt(s: Bits): (r: nat)
    requires |s| > 0
    ensures r < Pow2(|s|)
  {
    BinaryValue(s)
  }

  /** The positional value, one digit at a time from the right. */
  function BinaryValue(s: Bits): (r: nat)
    requires |s| > 0
    ensures r < Pow2(|s|)
  {
    if |s| == 1 then DigitValue(s[0])
    else 2 * BinaryValue(s[..|s| - 1]) + DigitValue(s[|s| - 1])
  }

  /** `bin(i)[2:]`: the shortest binary rendering of `i` ("0" for zero). */
  function BinaryDigits(i: nat): (r: Bits)
    ensures |r| >= 1
  {
    if i < 2 then [DigitOf(i)] else BinaryDigits(i / 2) + [DigitOf(i % 2)]
  }

  /** `bin` renders the value exactly, without leading zeros. */
  lemma {:induction false} ValueOfBinaryDigits(i: nat)
    ensures FromStringToInt(BinaryDigits(i)) == i
    ensures i > 0 ==> BinaryDigits(i)[0] == '1'
  {
    if i >= 2 {
      var p := BinaryDigits(i / 2);
      ValueOfBinaryDigits(i / 2);
      assert (p + [DigitOf(i % 2)])[..|p|] == p;
    }
  }

  /** `s.zfill(n)`: left-pad with zeros up to width `n`. */
  function ZFill(s: Bits, n: nat): (r: Bits)
    ensures |r| == if |s| >= n then |s| else n
  {
    if |s| >= n then s else Zeros(n - |s|) + s
  }

  /**
   * The low `n` bits of `i`, most significant first: the reference reading of
   * "render `i` on `n` bits, dropping what does not fit".
   */
  function LowBits(i: nat, n: nat): (r: Bits)
    ensures |r| == n
  {
    if n == 0 then [] else LowBits(i / 2, n - 1) + [DigitOf(i % 2)]
  }

  /**
   * `bin(i)[2:].zfill(size)[-size:]`: for a positive width, the low `size`
   * bits of `i`. With `size == 0` the slice `[-0:]` is the whole string, so
   * the full binary rendering comes back. `RenderingIsZFillSuffix` shows that
   * this is the string the zero-fill-and-slice expression builds.
   */
  function FromIntToString(i: nat, size: nat := 8): (r: Bits)
    ensures size > 0 ==> |r| == size
    ensures |r| > 0
  {
    if size == 0 then BinaryDigits(i) else LowBits(i, size)
  }

  /** The zero-fill-and-slice expression of `fromIntToString` builds `FromIntToString`. */
  lemma RenderingIsZFillSuffix(i: nat, size: nat)
    ensures var z := ZFill(BinaryDigits(i), size);
      FromIntToString(i, size) == if size == 0 then z else z[|z| - size..]
  {
    if size > 0 {
      SuffixOfZFill(i, size);
    }
  }

  /** The last `n` characters of `bin(i)[2:].zfill(n)` are the low `n` bits of `i`. */
  lemma {:induction false} SuffixOfZFill(i: nat, n: nat)
    requires n > 0
    ensures var z := ZFill(BinaryDigits(i), n); z[|z| - n..] == LowBits(i, n)
  {
    if i < 2 {
      LowBitsOfZero(n - 1);
      ZFillOfDigit(DigitOf(i), n);
    } else if n == 1 {
      LastOfZFill(BinaryDigits(i / 2), DigitOf(i % 2));
    } else {
      SuffixOfZFill(i / 2, n - 1);
      SuffixOfZFillStep(BinaryDigits(i / 2), DigitOf(i % 2), n);
    }
  }

  lemma ZFillOfDigit(d: Bit, n: nat)
    requires n > 0
    ensures var z := ZFill([d], n); z[|z| - n..] == Zeros(n - 1) + [d]
  {
  }

  lemma LastOfZFill(s: Bits, d: Bit)
    ensures var z := ZFill(s + [d], 1); z[|z| - 1..] == [d]
  {
  }

  /** Taking the last `n` characters after zero-filling peels off the last digit. */
  lemma SuffixOfZFillStep(s: Bits, d: Bit, n: nat)
    requires n > 1
    ensures var z := ZFill(s + [d], n); var z' := ZFill(s, n - 1);
      z[|z| - n..] == z'[|z'| - (n - 1)..] + [d]
  {
    var z := ZFill(s + [d], n);
    var z' := ZFill(s, n - 1);
    if |s| + 1 < n {
      assert z == z' + [d];
    }
  }

  lemma {:induction false} LowBitsOfZero(n: nat)
    ensures LowBits(0, n) == Zeros(n)
  {
    if n > 0 {
      LowBitsOfZero(n - 1);
    }
  }

  // ---------------------------------------------------------------------
  // Lemmas about the value of a bit string

  /** Concatenation scales the left part by the width of the right part. */
  lemma {:induction false} ValueOfConcat(p: Bits, q: Bits)
    requires |p| > 0 && |q| > 0
    ensures FromStringToInt(p + q) == FromStringToInt(p) * Pow2(|q|) + FromStringToInt(q)
    decreases |q|
  {
    var s := p + q;
    if |q| == 1 {
      assert s[..|s| - 1] == p;
    } else {
      var q' := q[..|q| - 1];
      assert s[..|s| - 1] == p + q';
      ValueOfConcat(p, q');
      ConcatArith(FromStringToInt(p), Pow2(|q'|), FromStringToInt(q'), DigitValue(q[|q| - 1]),
                  FromStringToInt(s), FromStringToInt(q), Pow2(|q|));
    }
  }

  lemma ConcatArith(a: int, b: int, c: int, d: int, fs: int, fq: int, pq: int)
    requires fs == 2 * (a * b + c) + d && fq == 2 * c + d && pq == 2 * b
    ensures fs == a * pq + fq
  {
  }

  lemma {:induction false} ValueOfZeros(n: nat)
    requires n > 0
    ensures FromStringToInt(Zeros(n)) == 0
  {
    if n > 1 {
      assert Zeros(n)[..n - 1] == Zeros(n - 1);
      ValueOfZeros(n - 1);
    }
  }

  lemma DivModUnique(x: int, y: int, m: int)
    requires m > 0 && 0 <= y < m
    ensures (x * m + y) % m == y
  {
    var n := x * m + y;
    var q, r := n / m, n % m;
    assert n == m * q + r;
    var k := x - q;
    assert k * m == r - y;
    assert k == 0;
  }

  lemma ModOfSmall(x: int, m: int)
    requires 0 <= x < m
    ensures x % m == x
  {
    DivModUnique(0, x, m);
  }

  /** Two strings of the same width with the same value are equal. */
  lemma {:induction false} ValueInjective(s: Bits, t: Bits)
    requires |s| == |t| > 0
    requires FromStringToInt(s) == FromStringToInt(t)
    ensures s == t
  {
    var n := |s|;
    if n == 1 {
      assert s[0] == t[0];
    } else {
      var vs, vt := FromStringToInt(s[..n - 1]), FromStringToInt(t[..n - 1]);
      var ds, dt := DigitValue(s[n - 1]), DigitValue(t[n - 1]);
      assert 2 * vs + ds == 2 * vt + dt;
      assert ds == dt && vs == vt;
      ValueInjective(s[..n - 1], t[..n - 1]);
      assert s == s[..n - 1] + [s[n - 1]];
      assert t == t[..n - 1] + [t[n - 1]];
    }
  }

  /** A string is all zeros exactly when its value is zero. */
  lemma {:induction false} ValueZeroIffNoOne(s: Bits)
    requires |s| > 0
    ensures FromStringToInt(s) == 0 <==> '1' !in s
  {
    if |s| > 1 {
      ValueZeroIffNoOne(s[..|s| - 1]);
      assert s == s[..|s| - 1] + [s[|s| - 1]];
    }
  }

  /** The low `n` bits of the value of an `n`-character string are that string. */
  lemma {:induction false} LowBitsOfValue(s: Bits)
    requires |s| > 0
    ensures LowBits(FromStringToInt(s), |s|) == s
  {
    var v := FromStringToInt(s);
    if |s| == 1 {
      assert LowBits(v, 1) == LowBits(v / 2, 0) + [DigitOf(v % 2)];
    } else {
      var s' := s[..|s| - 1];
      LowBitsOfValue(s');
      assert v / 2 == FromStringToInt(s') && v % 2 == DigitValue(s[|s| - 1]);
      assert s == s' + [s[|s| - 1]];
    }
  }

  /** Rendering a value back at its own width gives the same string. */
  lemma StringIntRoundTrip(s: Bits)
    requires |s| > 0
    ensures FromIntToString(FromStringToInt(s), |s|) == s
  {
    LowBitsOfValue(s);
  }

  lemma DoubleMod(x: nat, d: nat, m: nat)
    requires d < 2 && m > 0
    ensures (2 * x + d) % (2 * m) == 2 * (x % m) + d
  {
    var q, r := x / m, x % m;
    assert x == q * m + r;
    assert 2 * x + d == q * (2 * m) + (2 * r + d);
    DivModUnique(q, 2 * r + d, 2 * m);
  }

  /** The low `n` bits hold the value modulo 2^n. */
  lemma {:induction false} ValueOfLowBits(i: nat, n: nat)
    requires n > 0
    ensures FromStringToInt(LowBits(i, n)) == i % Pow2(n)
  {
    var r := LowBits(i, n);
    if n == 1 {
      assert r == [DigitOf(i % 2)];
    } else {
      ValueOfLowBits(i / 2, n - 1);
      assert r[..|r| - 1] == LowBits(i / 2, n - 1);
      assert FromStringToInt(r) == 2 * ((i / 2) % Pow2(n - 1)) + i % 2;
      DoubleMod(i / 2, i % 2, Pow2(n - 1));
    }
  }

  /** Parsing a rendered value recovers it modulo 2^size. */
  lemma IntStringRoundTrip(i: nat, size: nat)
    requires size > 0
    ensures FromStringToInt(FromIntToString(i, size)) == i % Pow2(size)
    ensures i < Pow2(size) ==> FromStringToInt(FromIntToString(i, size)) == i
  {
    ValueOfLowBits(i, size);
    if i < Pow2(size) {
      ModOfSmall(i, Pow2(size));
    }
  }

  lemma Pow2Widths()
    ensures Pow2(4) == 16 && Pow2(8) == 256 && Pow2(13) == 8192
  {
  }

  /** The two widths the simulator renders: a byte and an instruction word. */
  lemma RenderedWidths(i: nat)
    ensures FromStringToInt(FromIntToString(i, 8)) == i % 256
    ensures FromStringToInt(FromIntToString(i, 13)) == i % 8192
  {
    Pow2Widths();
    ValueOfLowBits(i, 8);
    ValueOfLowBits(i, 13);
  }

  /** The value of a byte, digit by digit; used to evaluate byte literals. */
  lemma ValueOfByte(s: Bits)
    requires |s| == 8
    ensures FromStringToInt(s) ==
      128 * DigitValue(s[0]) + 64 * DigitValue(s[1]) + 32 * DigitValue(s[2]) + 16 * DigitValue(s[3]) +
      8 * DigitValue(s[4]) + 4 * DigitValue(s[5]) + 2 * DigitValue(s[6]) + DigitValue(s[7])
  {
    assert s[..7][..6] == s[..6];
    assert s[..6][..5] == s[..5];
    assert s[..5][..4] == s[..4];
    assert s[..4][..3] == s[..3];
    assert s[..3][..2] == s[..2];
    assert s[..2][..1] == s[..1];
    assert BinaryValue(s[..2]) == 2 * DigitValue(s[0]) + DigitValue(s[1]);
    assert BinaryValue(s[..3]) == 2 * BinaryValue(s[..2]) + DigitValue(s[2]);
    assert BinaryValue(s[..4]) == 2 * BinaryValue(s[..3]) + DigitValue(s[3]);
    assert BinaryValue(s[..5]) == 2 * BinaryValue(s[..4]) + DigitValue(s[4]);
    assert BinaryValue(s[..6]) == 2 * BinaryValue(s[..5]) + DigitValue(s[5]);
    assert BinaryValue(s[..7]) == 2 * BinaryValue(s[..6]) + DigitValue(s[6]);
  }
}
