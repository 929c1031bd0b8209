/**
 * The line handling of `loadProgram`: a `.txt` program keeps the '0'/'1'
 * characters of each line up to a '#' comment and takes the lines that
 * leave exactly 13 bits; a `.hex` program reads the first four characters
 * of each line as a hexadecimal number and keeps its low 13 bits.
 */
module Loader {
  import opened Bits
  import opened Options

  // ---------------------------------------------------------------- text

  /** What the `.txt` branch keeps of a line: its '0' and '1' characters before the first '#'. */
  function Kept(line: string): (r: Bits)
    ensures |r| <= |line|
    decreases |line|
  {
    if |line| == 0 then []
    else if line[0] == '0' || line[0] == '1' then [line[0]] + Kept(line[1..])
    else if line[0] == '#' then []
    else Kept(line[1..])
  }

  /** The character loop of the `.txt` branch, which stops at the first '#'. */
  method FilterLine(line: string) returns (currentLine: Bits)
    ensures currentLine == Kept(line)
  {
    currentLine := [];
    var i := 0;
    while i < |line|
      invariant 0 <= i <= |line|
      invariant Kept(line) == currentLine + Kept(line[i..])
    {
      var c := line[i];
      assert line[i..][1..] == line[i + 1..];
      if c == '0' || c == '1' {
        currentLine := currentLine + [c];
      } else if c == '#' {
        break;
      }
      i := i + 1;
    }
  }

  /** A line with no '#' in `p` is filtered piece by piece. */
  lemma {:induction false} KeptOfConcat(p: string, q: string)
    requires forall i :: 0 <= i < |p| ==> p[i] != '#'
    ensures Kept(p + q) == Kept(p) + Kept(q)
    decreases |p|
  {
    if |p| > 0 {
      assert (p + q)[1..] == p[1..] + q;
      KeptOfConcat(p[1..], q);
    } else {
      assert p + q == q;
    }
  }

  /** A string of bits is kept whole. */
  lemma {:induction false} KeptOfBits(w: Bits)
    ensures Kept(w) == w
    decreases |w|
  {
    if |w| > 0 {
      KeptOfBits(w[1..]);
    }
  }

  /** Everything from the first '#' on is a comment. */
  lemma KeptStopsAtComment(p: string, rest: string)
    requires forall i :: 0 <= i < |p| ==> p[i] != '#'
    ensures Kept(p + ['#'] + rest) == Kept(p)
  {
    KeptOfConcat(p, ['#'] + rest);
    assert p + ['#'] + rest == p + (['#'] + rest);
  }

  /** The word a `.txt` line contributes, if it leaves exactly 13 bits. */
  function TextWord(line: string): (r: Option<Bits>)
    ensures r.Some? <==> |Kept(line)| == 13
    ensures r.Some? ==> r.value == Kept(line)
  {
    var k := Kept(line);
    if |k| == 13 then Some(k) else None
  }

  /**
   * A line holding a bit string and then a '#' comment contributes that bit
   * string exactly when it is 13 bits long, whatever the comment says.
   */
  lemma TextWordOfLine(w: Bits, comment: string)
    ensures TextWord(w + ['#'] + comment) == (if |w| == 13 then Some(w) else None)
  {
    KeptOfBits(w);
    KeptStopsAtComment(w, comment);
  }

  /** The program a `.txt` file loads: its lines' words in order, other lines skipped. */
  function TextProgram(lines: seq<string>): (r: seq<Bits>)
    ensures |r| <= |lines|
    ensures forall i :: 0 <= i < |r| ==> |r[i]| == 13
    decreases |lines|
  {
    if |lines| == 0 then []
    else
      var init := TextProgram(lines[..|lines| - 1]);
      match TextWord(lines[|lines| - 1])
      case None => init
      case Some(w) => init + [w]
  }

  /** The line loop of the `.txt` branch. */
  method LoadText(lines: seq<string>) returns (program: seq<Bits>)
    ensures program == TextProgram(lines)
  {
    program := [];
    var n := 0;
    while n < |lines|
      invariant 0 <= n <= |lines|
      invariant program == TextProgram(lines[..n])
    {
      var currentLine := FilterLine(lines[n]);
      if |currentLine| == 13 {
        program := program + [currentLine];
      }
      assert lines[..n + 1][..n] == lines[..n];
      n := n + 1;
    }
    assert lines[..n] == lines;
  }

  /**
   * A file whose lines are 13-bit words, each followed by an optional
   * comment, loads as exactly those words.
   */
  lemma {:induction false} TextProgramOfWords(words: seq<Bits>, comments: seq<string>)
    requires |comments| == |words|
    requires forall i :: 0 <= i < |words| ==> |words[i]| == 13
    ensures TextProgram(seq(|words|, i requires 0 <= i < |words| => words[i] + ['#'] + comments[i])) == words
    decreases |words|
  {
    var lines := seq(|words|, i requires 0 <= i < |words| => words[i] + ['#'] + comments[i]);
    if |words| > 0 {
      var n := |words| - 1;
      TextProgramOfWords(words[..n], comments[..n]);
      assert lines[..n] == seq(n, i requires 0 <= i < n => words[..n][i] + ['#'] + comments[..n][i]);
      TextWordOfLine(words[n], comments[n]);
      assert TextWord(lines[n]) == Some(words[n]);
      assert words[..n] + [words[n]] == words;
    }
  }

  // ----------------------------------------------------------------- hex

  /** The ASCII whitespace `int()` strips around its argument. */
  predicate IsSpace(c: char)
  {
    c == ' ' || c == '\t' || c == '\n' || c == '\r' || c == '\U{000B}' || c == '\U{000C}'
  }

  function TrimStart(s: string): (r: string)
    ensures |r| <= |s|
    ensures |r| > 0 ==> !IsSpace(r[0])
    decreases |s|
  {
    if |s| > 0 && IsSpace(s[0]) then TrimStart(s[1..]) else s
  }

  function TrimEnd(s: string): (r: string)
    ensures |r| <= |s|
    ensures |r| > 0 ==> !IsSpace(r[|r| - 1])
    decreases |s|
  {
    if |s| > 0 && IsSpace(s[|s| - 1]) then TrimEnd(s[..|s| - 1]) else s
  }

  function HexDigitValue(c: char): (r: Option<nat>)
    ensures r.Some? ==> r.value < 16
  {
    if '0' <= c <= '9' then Some(c as nat - '0' as nat)
    else if 'a' <= c <= 'f' then Some(c as nat - 'a' as nat + 10)
    else if 'A' <= c <= 'F' then Some(c as nat - 'A' as nat + 10)
    else None
  }

  /** The value of a string of hexadecimal digits, most significant first; `None` if any character is not one. */
  function HexDigitsValue(s: string): (r: Option<nat>)
    ensures r.Some? ==> r.value < Pow16(|s|)
    decreases |s|
  {
    if |s| == 0 then Some(0)
    else
      match HexDigitsValue(s[..|s| - 1])
      case None => None
      case Some(v) =>
        match HexDigitValue(s[|s| - 1])
        case None => None
        case Some(d) => Some(16 * v + d)
  }

  function Pow16(n: nat): (r: nat)
    ensures r >= 1
  {
    if n == 0 then 1 else 16 * Pow16(n - 1)
  }

  /** `int(s, 16)` on surrounding whitespace and hexadecimal digits; `None` is a `ValueError`. */
  function ParseHex(s: string): (r: Option<nat>)
    ensures r.Some? ==> r.value < Pow16(|s|)
  {
    var t := TrimEnd(TrimStart(s));
    if |t| == 0 then None
    else
      var v := HexDigitsValue(t);
      assert v.Some? ==> Pow16(|t|) <= Pow16(|s|) by {
        Pow16Monotone(|t|, |s|);
      }
      v
  }

  lemma {:induction false} Pow16Monotone(m: nat, n: nat)
    requires m <= n
    ensures Pow16(m) <= Pow16(n)
    decreases n
  {
    if m < n {
      Pow16Monotone(m, n - 1);
    }
  }

  /** `line[0:4]`. */
  function HexField(line: string): (r: string)
    ensures |r| <= 4
  {
    if |line| <= 4 then line else line[..4]
  }

  /** The word a `.hex` line loads as: its value rendered at 13 bits. */
  function HexWord(line: string): (r: Option<Bits>)
    ensures r.Some? <==> ParseHex(HexField(line)).Some?
    ensures r.Some? ==>
      |r.value| == 13 && FromStringToInt(r.value) == ParseHex(HexField(line)).value % 8192
  {
    match ParseHex(HexField(line))
    case None => None
    case Some(v) =>
      RenderedWidths(v);
      Some(FromIntToString(v, 13))
  }

  /** The program a `.hex` file loads, or `None` when a line raises and nothing is loaded. */
  function HexProgram(lines: seq<string>): (r: Option<seq<Bits>>)
    ensures r.Some? ==> |r.value| == |lines|
    ensures r.Some? ==> forall i :: 0 <= i < |lines| ==> HexWord(lines[i]) == Some(r.value[i])
    ensures r.None? ==> exists i :: 0 <= i < |lines| && HexWord(lines[i]).None?
    decreases |lines|
  {
    if |lines| == 0 then Some([])
    else
      var last := lines[|lines| - 1];
      match HexProgram(lines[..|lines| - 1])
      case None => None
      case Some(init) =>
        match HexWord(last)
        case None => None
        case Some(w) => Some(init + [w])
  }

  /** The line loop of the `.hex` branch; a line `int()` rejects aborts the load. */
  method LoadHex(lines: seq<string>) returns (program: Option<seq<Bits>>)
    ensures program == HexProgram(lines)
  {
    var words: seq<Bits> := [];
    var n := 0;
    while n < |lines|
      invariant 0 <= n <= |lines|
      invariant HexProgram(lines[..n]) == Some(words)
    {
      assert lines[..n + 1][..n] == lines[..n];
      var v := ParseHex(HexField(lines[n]));
      if v.None? {
        HexProgramFails(lines, n);
        return None;
      }
      words := words + [FromIntToString(v.value, 13)];
      n := n + 1;
    }
    assert lines[..n] == lines;
    program := Some(words);
  }

  /** One line that raises makes the whole load fail. */
  lemma {:induction false} HexProgramFails(lines: seq<string>, n: nat)
    requires n < |lines| && HexWord(lines[n]).None?
    ensures HexProgram(lines).None?
    decreases |lines|
  {
    if n < |lines| - 1 {
      HexProgramFails(lines[..|lines| - 1], n);
    }
  }

  /** The uppercase hexadecimal digit of `d`. */
  function HexChar(d: nat): (c: char)
    requires d < 16
    ensures HexDigitValue(c) == Some(d)
  {
    if d < 10 then ('0' as nat + d) as char else ('A' as nat + d - 10) as char
  }

  /** A 13-bit word written as the four hexadecimal digits of its value. */
  function HexOfWord(w: Bits): (r: string)
    requires |w| == 13
    ensures |r| == 4
  {
    var v := FromStringToInt(w);
    [HexChar(v / 4096 % 16), HexChar(v / 256 % 16), HexChar(v / 16 % 16), HexChar(v % 16)]
  }

  lemma DivModOf(q: int, r: int, m: int)
    requires m > 0 && 0 <= r < m
    ensures (q * m + r) / m == q && (q * m + r) % m == r
  {
    DivModUnique(q, r, m);
    var n := q * m + r;
    assert n == m * (n / m) + n % m;
    assert m * (n / m) == m * q;
  }

  /** Splitting off the lowest digit in base `m` of a number taken modulo `m * k`. */
  lemma ModSplit(x: nat, m: nat, k: nat)
    requires m > 0 && k > 0
    ensures x % (m * k) == m * ((x / m) % k) + x % m
    ensures x / m / k == x / (m * k)
  {
    var q, r := x / (m * k), x % (m * k);
    assert x == q * (m * k) + r;
    var a, b := r / m, r % m;
    assert r == a * m + b;
    assert (k - a) * m == k * m - a * m;
    assert (k - a) * m > 0;
    assert x == (q * k + a) * m + b;
    DivModOf(q * k + a, b, m);
    DivModOf(q, a, k);
  }

  /** Four hexadecimal digits, with no whitespace around them, parse to their value. */
  lemma ValueOfFourDigits(h: string, d0: nat, d1: nat, d2: nat, d3: nat)
    requires |h| == 4
    requires HexDigitValue(h[0]) == Some(d0) && HexDigitValue(h[1]) == Some(d1)
    requires HexDigitValue(h[2]) == Some(d2) && HexDigitValue(h[3]) == Some(d3)
    ensures ParseHex(h) == Some(16 * (16 * (16 * d0 + d1) + d2) + d3)
  {
    assert TrimStart(h) == h;
    assert TrimEnd(h) == h;
    assert h[..4] == h;
    assert h[..4][..3] == h[..3] && h[..3][..2] == h[..2] && h[..2][..1] == h[..1] && h[..1][..0] == [];
    assert HexDigitsValue(h[..1]) == Some(d0);
    assert HexDigitsValue(h[..2]) == Some(16 * d0 + d1);
    assert HexDigitsValue(h[..3]) == Some(16 * (16 * d0 + d1) + d2);
  }

  lemma HexDigitsArith(v: nat)
    ensures 16 * (16 * (16 * (v / 4096 % 16) + v / 256 % 16) + v / 16 % 16) + v % 16 == v % 65536
  {
    ModSplit(v, 16, 4096);
    ModSplit(v / 16, 16, 256);
    ModSplit(v / 256, 16, 16);
    ModSplit(v, 16, 16);
    ModSplit(v, 256, 16);
  }

  /**
   * Writing a word in hexadecimal and loading the line gives the word back,
   * whatever follows the four digits.
   */
  lemma HexRoundTrip(w: Bits, rest: string)
    requires |w| == 13
    ensures HexWord(HexOfWord(w) + rest) == Some(w)
  {
    var h := HexOfWord(w);
    var v := FromStringToInt(w);
    var d0, d1, d2, d3 := v / 4096 % 16, v / 256 % 16, v / 16 % 16, v % 16;
    assert h == [HexChar(d0), HexChar(d1), HexChar(d2), HexChar(d3)];
    ValueOfFourDigits(h, d0, d1, d2, d3);
    assert HexField(h + rest) == h;
    HexDigitsArith(v);
    Pow2Widths();
    ModOfSmall(v, 65536);
    StringIntRoundTrip(w);
  }
}
