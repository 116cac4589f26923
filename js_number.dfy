/** The number primitives of the JavaScript runtime that the dashboard relies on:
    `parseFloat`, `String(n)` for a number (Number::toString) and
    `n.toFixed(2)`. Finite values are exact reals; a number taken from a
    spreadsheet is held as its shortest decimal form, mantissa * 10^exponent,
    which is what Number::toString prints. */
module JsNumber {
  import opened JsText

  /** What `parseFloat` can return. */
  datatype Float = NaN | Finite(r: real) | PosInf | NegInf

  function Negate(f: Float): Float {
    match f
    case NaN => NaN
    case Finite(r) => Finite(-r)
    case PosInf => NegInf
    case NegInf => PosInf
  }

  function Abs(x: int): nat {
    if x < 0 then -x else x
  }

  // ---------------------------------------------------------------------
  // Powers of ten

  function Pow10(n: nat): (p: nat)
    ensures p >= 1
  {
    if n == 0 then 1 else 10 * Pow10(n - 1)
  }

  lemma {:induction false} Pow10Add(a: nat, b: nat)
    ensures Pow10(a + b) == Pow10(a) * Pow10(b)
  {
    if b > 0 {
      Pow10Add(a, b - 1);
      calc {
        Pow10(a + b);
        10 * Pow10(a + b - 1);
        10 * (Pow10(a) * Pow10(b - 1));
        Pow10(a) * (10 * Pow10(b - 1));
      }
    }
  }

  // ---------------------------------------------------------------------
  // Decimal digits

  predicate IsDigit(c: char) {
    '0' <= c <= '9'
  }

  predicate AllDigits(s: string) {
    forall i :: 0 <= i < |s| ==> IsDigit(s[i])
  }

  /** The value of a digit character (0 for any other character, which the
      scanner never asks about). */
  function DigitValue(c: char): (d: nat)
    ensures d < 10
  {
    if IsDigit(c) then c as int - '0' as int else 0
  }

  function DigitChar(d: nat): (c: char)
    requires d < 10
    ensures IsDigit(c) && DigitValue(c) == d
  {
    ('0' as int + d) as char
  }

  /** The natural number a string of decimal digits denotes. */
  function DigitsValue(s: string): nat {
    if s == [] then 0 else 10 * DigitsValue(s[..|s| - 1]) + DigitValue(s[|s| - 1])
  }

  lemma {:induction false} ShiftArith(va: nat, p: nat, vb: nat, d: nat)
    ensures 10 * (va * p + vb) + d == va * (10 * p) + (10 * vb + d)
  {
  }

  lemma {:induction false} DigitsValueAppend(a: string, b: string)
    ensures DigitsValue(a + b) == DigitsValue(a) * Pow10(|b|) + DigitsValue(b)
  {
    if b != [] {
      var b' := b[..|b| - 1];
      var last := DigitValue(b[|b| - 1]);
      assert (a + b)[..|a + b| - 1] == a + b';
      assert (a + b)[|a + b| - 1] == b[|b| - 1];
      assert DigitsValue(a + b) == 10 * DigitsValue(a + b') + last;
      assert DigitsValue(b) == 10 * DigitsValue(b') + last;
      DigitsValueAppend(a, b');
      assert Pow10(|b|) == 10 * Pow10(|b'|);
      ShiftArith(DigitsValue(a), Pow10(|b'|), DigitsValue(b'), last);
    } else {
      assert a + b == a;
    }
  }

  /** `n` written in decimal, without leading zeros. */
  function Digits(n: nat): (s: string)
    ensures |s| >= 1 && AllDigits(s)
    ensures DigitsValue(s) == n
    ensures n > 0 ==> s[0] != '0'
  {
    if n < 10 then [DigitChar(n)]
    else
      var p := Digits(n / 10);
      assert (p + [DigitChar(n % 10)])[..|p|] == p;
      p + [DigitChar(n % 10)]
  }

  /** `n` copies of '0'. */
  function Zeros(n: nat): (z: string)
    ensures |z| == n && AllDigits(z)
    ensures forall i :: 0 <= i < n ==> z[i] == '0'
  {
    seq(n, i => '0')
  }

  lemma {:induction false} ZerosValue(n: nat)
    ensures DigitsValue(Zeros(n)) == 0
  {
    if n > 0 {
      assert Zeros(n)[..n - 1] == Zeros(n - 1);
      ZerosValue(n - 1);
    }
  }

  /** Leading zeros do not change the value of a digit string. */
  lemma {:induction false} LeadingZerosValue(n: nat, s: string)
    requires AllDigits(s)
    ensures AllDigits(Zeros(n) + s)
    ensures DigitsValue(Zeros(n) + s) == DigitsValue(s)
  {
    DigitsValueAppend(Zeros(n), s);
    ZerosValue(n);
  }

  // ---------------------------------------------------------------------
  // Exact decimal values

  /** The exact value of mantissa * 10^exponent, one factor ten at a time. */
  function DecimalValue(mantissa: int, exponent: int): real
    decreases if exponent >= 0 then exponent else -exponent
  {
    if exponent == 0 then mantissa as real
    else if exponent > 0 then 10.0 * DecimalValue(mantissa, exponent - 1)
    else DecimalValue(mantissa, exponent + 1) / 10.0
  }

  lemma {:induction false} DecimalStep(m: int, e: int)
    ensures DecimalValue(m, e + 1) == 10.0 * DecimalValue(m, e)
  {
  }

  lemma {:induction false} DecimalOfZero(e: int)
    ensures DecimalValue(0, e) == 0.0
    decreases if e >= 0 then e else -e
  {
    if e > 0 {
      DecimalOfZero(e - 1);
    } else if e < 0 {
      DecimalOfZero(e + 1);
    }
  }

  lemma {:induction false} DecimalNonZero(m: int, e: int)
    requires m != 0
    ensures DecimalValue(m, e) != 0.0
    decreases if e >= 0 then e else -e
  {
    if e > 0 {
      DecimalNonZero(m, e - 1);
    } else if e < 0 {
      DecimalNonZero(m, e + 1);
    }
  }

  lemma {:induction false} DecimalNegate(m: int, e: int)
    ensures DecimalValue(-m, e) == -DecimalValue(m, e)
    decreases if e >= 0 then e else -e
  {
    if e > 0 {
      DecimalNegate(m, e - 1);
    } else if e < 0 {
      DecimalNegate(m, e + 1);
    }
  }

  /** A factor ten moves between the mantissa and the exponent. */
  lemma {:induction false} MantissaTimesTen(m: int, e: int)
    ensures DecimalValue(10 * m, e) == DecimalValue(m, e + 1)
    decreases if e >= 0 then e else -e
  {
    if e > 0 {
      MantissaTimesTen(m, e - 1);
    } else if e < 0 {
      MantissaTimesTen(m, e + 1);
      DecimalStep(m, e);
    }
  }

  lemma {:induction false} DecimalAdd(m: int, n: int, e: int)
    ensures DecimalValue(m + n, e) == DecimalValue(m, e) + DecimalValue(n, e)
    decreases if e >= 0 then e else -e
  {
    if e > 0 {
      DecimalAdd(m, n, e - 1);
    } else if e < 0 {
      DecimalAdd(m, n, e + 1);
    }
  }

  /** Moving a factor 10^z from the mantissa into the exponent keeps the value. */
  lemma {:induction false} ShiftExponent(s: nat, z: nat, e: int)
    ensures DecimalValue(s * Pow10(z), e) == DecimalValue(s, e + z)
  {
    if z > 0 {
      var q := s * Pow10(z - 1);
      assert s * Pow10(z) == 10 * q;
      MantissaTimesTen(q, e);
      ShiftExponent(s, z - 1, e + 1);
    }
  }

  /** Dropping a trailing zero of the mantissa and raising the exponent keeps the value. */
  lemma {:induction false} StripStep(m: nat, e: int)
    requires m % 10 == 0
    ensures DecimalValue(m / 10, e + 1) == DecimalValue(m, e)
  {
    assert m == 10 * (m / 10);
    MantissaTimesTen(m / 10, e);
  }

  /** A positive decimal m * 10^e. */
  datatype Decimal = Decimal(mantissa: nat, exponent: int)

  /** Removes trailing zeros from a mantissa, raising the exponent to match. */
  function Strip(m: nat, e: int): (r: Decimal)
    ensures (r.mantissa == 0) == (m == 0)
    ensures r.mantissa != 0 ==> r.mantissa % 10 != 0
  {
    if m != 0 && m % 10 == 0 then Strip(m / 10, e + 1) else Decimal(m, e)
  }

  /** Stripping keeps the value. */
  lemma {:induction false} StripValue(m: nat, e: int)
    ensures DecimalValue(Strip(m, e).mantissa, Strip(m, e).exponent) == DecimalValue(m, e)
  {
    if m != 0 && m % 10 == 0 {
      StripValue(m / 10, e + 1);
      StripStep(m, e);
    }
  }

  // ---------------------------------------------------------------------
  // parseFloat

  /** The index just past the run of digits that starts at `i`. */
  function DigitsEnd(s: string, i: nat): (j: nat)
    requires i <= |s|
    ensures i <= j <= |s|
    decreases |s| - i
  {
    if i < |s| && IsDigit(s[i]) then DigitsEnd(s, i + 1) else i
  }

  /** The number the digits s[i..j] denote. */
  function SpanValue(s: string, i: nat, j: nat): nat
    requires i <= j <= |s|
    decreases j - i
  {
    if j == i then 0 else 10 * SpanValue(s, i, j - 1) + DigitValue(s[j - 1])
  }

  /** "Infinity" starts at index `i`. */
  predicate InfinityAt(s: string, i: nat) {
    && i + 8 <= |s|
    && s[i] == 'I' && s[i + 1] == 'n' && s[i + 2] == 'f' && s[i + 3] == 'i'
    && s[i + 4] == 'n' && s[i + 5] == 'i' && s[i + 6] == 't' && s[i + 7] == 'y'
  }

  /** Value of an ExponentPart at index `k` ('e' or 'E', an optional sign, at
      least one digit); 0 when none starts there. */
  function ExponentAt(s: string, k: nat): int
    requires k <= |s|
  {
    if k + 1 < |s| && (s[k] == 'e' || s[k] == 'E') then
      var p := if s[k + 1] == '-' || s[k + 1] == '+' then k + 2 else k + 1;
      var q := DigitsEnd(s, p);
      if q == p then 0
      else if s[k + 1] == '-' then -(SpanValue(s, p, q) as int)
      else SpanValue(s, p, q)
    else 0
  }

  /** `parseFloat` from index `i`, after the sign: "Infinity", or the longest
      literal digits [. [digits]] [exponent] or . digits [exponent]; NaN when
      there is none. */
  function ParseUnsigned(s: string, i: nat): Float
    requires i <= |s|
  {
    if InfinityAt(s, i) then PosInf
    else
      var j := DigitsEnd(s, i);
      if j < |s| && s[j] == '.' then
        var k := DigitsEnd(s, j + 1);
        if j == i && k == j + 1 then NaN
        else
          var x := ExponentAt(s, k);
          Finite(DecimalValue(SpanValue(s, i, j), x) + DecimalValue(SpanValue(s, j + 1, k), x - (k - (j + 1))))
      else if j == i then NaN
      else Finite(DecimalValue(SpanValue(s, i, j), ExponentAt(s, j)))
  }

  /** `parseFloat(s)`: skip leading white space, read an optional sign, then
      the longest decimal literal. */
  function ParseFloat(s: string): Float {
    var i := LeadingWhitespace(s);
    if i < |s| && s[i] == '-' then Negate(ParseUnsigned(s, i + 1))
    else if i < |s| && s[i] == '+' then ParseUnsigned(s, i + 1)
    else ParseUnsigned(s, i)
  }

  /** The plain decimal text `a.b` followed by `x` (the '.' is left out when
      `b` is empty), the shape both Number::toString and toFixed produce. */
  function DecimalText(a: string, b: string, x: string): string {
    a + (if b == [] then [] else "." + b) + x
  }

  /** The exponent written in `x`, read from its start. */
  function ExponentValue(x: string): int {
    ExponentAt(x, 0)
  }

  /** A run of digits ends where the digits stop. */
  lemma {:induction false} DigitsEndAt(s: string, i: nat, j: nat)
    requires i <= j <= |s|
    requires forall k :: i <= k < j ==> IsDigit(s[k])
    requires j < |s| ==> !IsDigit(s[j])
    ensures DigitsEnd(s, i) == j
    decreases j - i
  {
    if i < j {
      DigitsEndAt(s, i + 1, j);
    }
  }

  /** Everything before the end of a run is a digit; the character at its end is not. */
  lemma {:induction false} DigitsEndSpec(s: string, i: nat)
    requires i <= |s|
    ensures forall k :: i <= k < DigitsEnd(s, i) ==> IsDigit(s[k])
    ensures DigitsEnd(s, i) < |s| ==> !IsDigit(s[DigitsEnd(s, i)])
    decreases |s| - i
  {
    if i < |s| && IsDigit(s[i]) {
      DigitsEndSpec(s, i + 1);
    }
  }

  /** The value of a span is the value of the digits it covers. */
  lemma {:induction false} SpanDigitsValue(s: string, i: nat, j: nat)
    requires i <= j <= |s|
    ensures SpanValue(s, i, j) == DigitsValue(s[i..j])
    decreases j - i
  {
    if j > i {
      SpanDigitsValue(s, i, j - 1);
      assert s[i..j][..j - i - 1] == s[i..j - 1];
    }
  }

  /** The digits `q` placed after the text `p`, followed by a non-digit,
      read as a span. */
  lemma {:induction false} SpanOfPiece(p: string, q: string, r: string)
    requires AllDigits(q)
    requires r == [] || !IsDigit(r[0])
    ensures DigitsEnd(p + q + r, |p|) == |p| + |q|
    ensures SpanValue(p + q + r, |p|, |p| + |q|) == DigitsValue(q)
  {
    var s := p + q + r;
    assert forall k :: |p| <= k < |p| + |q| ==> s[k] == q[k - |p|];
    DigitsEndAt(s, |p|, |p| + |q|);
    SpanDigitsValue(s, |p|, |p| + |q|);
    assert s[|p|..|p| + |q|] == q;
  }

  /** Scanning digits is unaffected by text placed in front. */
  lemma {:induction false} DigitsEndShift(p: string, x: string, i: nat)
    requires i <= |x|
    ensures DigitsEnd(p + x, |p| + i) == |p| + DigitsEnd(x, i)
    decreases |x| - i
  {
    if i < |x| {
      assert (p + x)[|p| + i] == x[i];
      if IsDigit(x[i]) {
        DigitsEndShift(p, x, i + 1);
      }
    }
  }

  /** The value of a span is unaffected by text placed in front. */
  lemma {:induction false} SpanShift(p: string, x: string, i: nat, j: nat)
    requires i <= j <= |x|
    ensures SpanValue(p + x, |p| + i, |p| + j) == SpanValue(x, i, j)
    decreases j - i
  {
    if j > i {
      SpanShift(p, x, i, j - 1);
      assert (p + x)[|p| + j - 1] == x[j - 1];
    }
  }

  /** An exponent part reads the same wherever it is placed. */
  lemma {:induction false} ExponentAfter(p: string, x: string)
    ensures ExponentAt(p + x, |p|) == ExponentValue(x)
  {
    var s := p + x;
    if |x| >= 2 && (x[0] == 'e' || x[0] == 'E') {
      assert s[|p|] == x[0] && s[|p| + 1] == x[1];
      var p0 := if x[1] == '-' || x[1] == '+' then 2 else 1;
      DigitsEndShift(p, x, p0);
      SpanShift(p, x, p0, DigitsEnd(x, p0));
    } else if |p + x| > |p| + 1 {
      assert s[|p|] == x[0];
    }
  }

  /** After a prefix `p`, digits `a` followed by a non-digit text `x`. */
  lemma {:induction false} ReadInteger(p: string, a: string, x: string)
    requires |a| > 0 && AllDigits(a)
    requires x == [] || x[0] == 'e'
    ensures ParseUnsigned(p + a + x, |p|) == Finite(DecimalValue(DigitsValue(a), ExponentValue(x)))
  {
    var s := p + a + x;
    assert !InfinityAt(s, |p|) by {
      assert s[|p|] == a[0];
    }
    SpanOfPiece(p, a, x);
    ExponentAfter(p + a, x);
  }

  /** What the scanners find in `p` followed by digits `a`, a point, digits
      `b` and then `x`. */
  lemma {:induction false} ScanFraction(p: string, a: string, b: string, x: string)
    requires |a| > 0 && AllDigits(a) && AllDigits(b) && b != []
    requires x == [] || x[0] == 'e'
    ensures var s := p + a + ("." + b + x); var j := |p| + |a|; var k := j + 1 + |b|;
      && !InfinityAt(s, |p|)
      && DigitsEnd(s, |p|) == j && j < |s| && s[j] == '.'
      && DigitsEnd(s, j + 1) == k
      && SpanValue(s, |p|, j) == DigitsValue(a)
      && SpanValue(s, j + 1, k) == DigitsValue(b)
      && ExponentAt(s, k) == ExponentValue(x)
  {
    var s := p + a + ("." + b + x);
    assert s[|p|] == a[0];
    SpanOfPiece(p, a, "." + b + x);
    assert s[|p| + |a|] == '.';
    assert s == (p + a + ".") + b + x;
    SpanOfPiece(p + a + ".", b, x);
    ExponentAfter(p + a + "." + b, x);
  }

  /** After a prefix `p`, digits `a`, a point, digits `b` and then `x`. */
  lemma {:induction false} ReadFraction(p: string, a: string, b: string, x: string)
    requires |a| > 0 && AllDigits(a) && AllDigits(b) && b != []
    requires x == [] || x[0] == 'e'
    ensures ParseUnsigned(p + a + ("." + b + x), |p|)
         == Finite(DecimalValue(DigitsValue(a), ExponentValue(x)) + DecimalValue(DigitsValue(b), ExponentValue(x) - |b|))
  {
    ScanFraction(p, a, b, x);
  }

  /** Digits before and after the point: the integer part scaled by 10^e plus
      the fraction part scaled by 10^(e - |b|). */
  lemma {:induction false} SplitDigitsValue(a: string, b: string, e: int)
    ensures DecimalValue(DigitsValue(a + b), e - |b|)
         == DecimalValue(DigitsValue(a), e) + DecimalValue(DigitsValue(b), e - |b|)
  {
    DigitsValueAppend(a, b);
    DecimalAdd(DigitsValue(a) * Pow10(|b|), DigitsValue(b), e - |b|);
    ShiftExponent(DigitsValue(a), |b|, e - |b|);
  }

  /** After any prefix `p`, `parseFloat` reads back the plain decimal text. */
  lemma {:induction false} ReadDecimalText(p: string, a: string, b: string, x: string)
    requires |a| > 0 && AllDigits(a) && AllDigits(b)
    requires x == [] || x[0] == 'e'
    ensures ParseUnsigned(p + DecimalText(a, b, x), |p|)
         == Finite(DecimalValue(DigitsValue(a + b), ExponentValue(x) - |b|))
  {
    if b == [] {
      ReadWholeText(p, a, x);
      assert a + b == a;
    } else {
      ReadPointText(p, a, b, x);
    }
  }

  lemma {:induction false} ReadWholeText(p: string, a: string, x: string)
    requires |a| > 0 && AllDigits(a)
    requires x == [] || x[0] == 'e'
    ensures ParseUnsigned(p + DecimalText(a, [], x), |p|)
         == Finite(DecimalValue(DigitsValue(a), ExponentValue(x)))
  {
    assert p + DecimalText(a, [], x) == p + a + x;
    ReadInteger(p, a, x);
  }

  lemma {:induction false} ReadPointText(p: string, a: string, b: string, x: string)
    requires |a| > 0 && AllDigits(a) && AllDigits(b) && b != []
    requires x == [] || x[0] == 'e'
    ensures ParseUnsigned(p + DecimalText(a, b, x), |p|)
         == Finite(DecimalValue(DigitsValue(a + b), ExponentValue(x) - |b|))
  {
    assert p + DecimalText(a, b, x) == p + a + ("." + b + x);
    ReadFraction(p, a, b, x);
    SplitDigitsValue(a, b, ExponentValue(x));
  }

  /** `parseFloat` of text that starts with a digit, alone or after a minus. */
  lemma {:induction false} ParseDigitFirst(t: string)
    requires |t| > 0 && IsDigit(t[0])
    ensures ParseFloat(t) == ParseUnsigned([] + t, 0)
    ensures ParseFloat("-" + t) == Negate(ParseUnsigned("-" + t, 1))
  {
    assert [] + t == t;
    assert ("-" + t)[0] == '-';
    assert LeadingWhitespace(t) == 0;
    assert LeadingWhitespace("-" + t) == 0;
  }

  /** `parseFloat` reads back the plain decimal text it is given. */
  lemma {:induction false} ParseDecimalText(a: string, b: string, x: string)
    requires |a| > 0 && AllDigits(a) && AllDigits(b)
    requires x == [] || x[0] == 'e'
    ensures ParseFloat(DecimalText(a, b, x))
         == Finite(DecimalValue(DigitsValue(a + b), ExponentValue(x) - |b|))
  {
    ReadDecimalText([], a, b, x);
    ParseDigitFirst(DecimalText(a, b, x));
  }

  // ---------------------------------------------------------------------
  // Number::toString

  /** "e+x" or "e-x", the exponent part Number::toString writes. */
  function ExponentText(x: int): (t: string)
    ensures |t| >= 3 && t[0] == 'e'
  {
    "e" + (if x < 0 then "-" else "+") + Digits(Abs(x))
  }

  lemma {:induction false} ExponentTextValue(x: int)
    ensures ExponentValue(ExponentText(x)) == x
  {
    var sign := "e" + (if x < 0 then "-" else "+");
    var d := Digits(Abs(x));
    assert ExponentText(x) == sign + d + [];
    SpanOfPiece(sign, d, []);
  }

  /** The pieces of a numeral: digits before the point, digits after it
      (none when there is no point) and an exponent part (possibly empty). */
  datatype Parts = Parts(whole: string, fraction: string, exp: string)

  /** Number::toString for the positive number with significant digits `d`
      times 10^e: with k digits and the decimal point at n = e + k, integers
      of up to 21 digits are written out ("123000"), other numbers from 10^-6
      up with a point ("12.3", "0.00123"), everything else in exponential
      form ("1.23e+25"). */
  function SignificandParts(d: string, e: int): (q: Parts)
    requires |d| > 0 && AllDigits(d)
    ensures WellFormed(q)
  {
    var k := |d|;
    var n := e + k;
    if k <= n <= 21 then Parts(d + Zeros(n - k), [], [])
    else if 0 < n <= 21 then Parts(d[..n], d[n..], [])
    else if -6 < n <= 0 then
      LeadingZerosValue(-n, d);
      Parts("0", Zeros(-n) + d, [])
    else Parts(d[..1], d[1..], ExponentText(n - 1))
  }

  /** Pieces that can be written as a numeral: at least one digit before
      the point, digits after it, and an exponent part or nothing. */
  predicate WellFormed(q: Parts) {
    |q.whole| > 0 && AllDigits(q.whole) && AllDigits(q.fraction) && (q.exp == [] || q.exp[0] == 'e')
  }

  /** The numeral the pieces spell. */
  function PartsText(q: Parts): (t: string)
    requires WellFormed(q)
    ensures |t| > 0 && IsDigit(t[0])
  {
    DecimalText(q.whole, q.fraction, q.exp)
  }

  /** Number::toString for m * 10^e: "0", or the pieces for the digits of
      |m| without their trailing zeros. */
  function NumberParts(mantissa: int, exponent: int): (q: Parts)
    ensures WellFormed(q)
  {
    if mantissa == 0 then Parts("0", [], [])
    else
      var r := Strip(Abs(mantissa), exponent);
      SignificandParts(Digits(r.mantissa), r.exponent)
  }

  /** `String(x)` for the number x = mantissa * 10^exponent. */
  function NumberText(mantissa: int, exponent: int): string {
    (if mantissa < 0 then "-" else "") + PartsText(NumberParts(mantissa, exponent))
  }

  lemma {:induction false} ZerosCons(n: nat)
    ensures "0" + Zeros(n) == Zeros(n + 1)
  {
  }

  /** The value the pieces of a numeral denote. */
  function PartsValue(q: Parts): real {
    DecimalValue(DigitsValue(q.whole + q.fraction), ExponentValue(q.exp) - |q.fraction|)
  }

  lemma {:induction false} IntegerPartsValue(d: string, e: int)
    requires |d| > 0 && AllDigits(d) && |d| <= e + |d| <= 21
    ensures PartsValue(SignificandParts(d, e)) == DecimalValue(DigitsValue(d), e)
  {
    var z: nat := e;
    var a := d + Zeros(z);
    assert SignificandParts(d, e) == Parts(a, [], []);
    assert a + [] == a;
    assert DigitsValue(a) == DigitsValue(d) * Pow10(z) by {
      DigitsValueAppend(d, Zeros(z));
      ZerosValue(z);
    }
    ShiftExponent(DigitsValue(d), z, 0);
  }

  lemma {:induction false} PointPartsValue(d: string, e: int)
    requires |d| > 0 && AllDigits(d) && 0 < e + |d| < |d| && e + |d| <= 21
    ensures PartsValue(SignificandParts(d, e)) == DecimalValue(DigitsValue(d), e)
  {
    var n := e + |d|;
    assert SignificandParts(d, e) == Parts(d[..n], d[n..], []);
    assert d[..n] + d[n..] == d;
  }

  lemma {:induction false} SmallPartsValue(d: string, e: int)
    requires |d| > 0 && AllDigits(d) && -6 < e + |d| <= 0
    ensures PartsValue(SignificandParts(d, e)) == DecimalValue(DigitsValue(d), e)
  {
    var z: nat := -(e + |d|);
    var b := Zeros(z) + d;
    assert SignificandParts(d, e) == Parts("0", b, []);
    assert DigitsValue("0" + b) == DigitsValue(d) by {
      assert "0" + b == ("0" + Zeros(z)) + d;
      ZerosCons(z);
      LeadingZerosValue(z + 1, d);
    }
  }

  lemma {:induction false} ExponentialPartsValue(d: string, e: int)
    requires |d| > 0 && AllDigits(d)
    requires e + |d| <= -6 || 21 < e + |d|
    ensures PartsValue(SignificandParts(d, e)) == DecimalValue(DigitsValue(d), e)
  {
    var x := e + |d| - 1;
    assert SignificandParts(d, e) == Parts(d[..1], d[1..], ExponentText(x));
    ExponentTextValue(x);
    assert d[..1] + d[1..] == d;
  }

  /** Whatever form Number::toString chooses, its pieces denote d * 10^e. */
  lemma {:induction false} SignificandPartsValue(d: string, e: int)
    requires |d| > 0 && AllDigits(d)
    ensures PartsValue(SignificandParts(d, e)) == DecimalValue(DigitsValue(d), e)
  {
    var n := e + |d|;
    if |d| <= n <= 21 {
      IntegerPartsValue(d, e);
    } else if 0 < n <= 21 {
      PointPartsValue(d, e);
    } else if -6 < n <= 0 {
      SmallPartsValue(d, e);
    } else {
      ExponentialPartsValue(d, e);
    }
  }

  /** `parseFloat` reads the pieces of a numeral back as the value they
      denote, wherever they are placed. */
  lemma {:induction false} ReadParts(p: string, q: Parts)
    requires WellFormed(q)
    ensures ParseUnsigned(p + PartsText(q), |p|) == Finite(PartsValue(q))
  {
    ReadDecimalText(p, q.whole, q.fraction, q.exp);
  }

  /** A numeral parses to its value. */
  lemma {:induction false} ParseParts(q: Parts)
    requires WellFormed(q)
    ensures ParseFloat(PartsText(q)) == Finite(PartsValue(q))
  {
    ReadParts([], q);
    ParseDigitFirst(PartsText(q));
  }

  /** A numeral after a minus sign parses to the negation of its value. */
  lemma {:induction false} ParseMinusParts(q: Parts)
    requires WellFormed(q)
    ensures ParseFloat("-" + PartsText(q)) == Finite(-PartsValue(q))
  {
    ReadParts("-", q);
    ParseAfterMinus(PartsText(q), PartsValue(q));
  }

  lemma {:induction false} ParseAfterMinus(t: string, v: real)
    requires |t| > 0 && IsDigit(t[0])
    requires ParseUnsigned("-" + t, 1) == Finite(v)
    ensures ParseFloat("-" + t) == Finite(-v)
  {
    ParseDigitFirst(t);
  }

  /** The value Number::toString writes for m * 10^e, sign aside. */
  lemma {:induction false} NumberPartsValue(mantissa: int, exponent: int)
    ensures PartsValue(NumberParts(mantissa, exponent)) == DecimalValue(Abs(mantissa), exponent)
  {
    if mantissa == 0 {
      assert "0" + [] == "0";
      assert DigitsValue("0") == 0;
      assert PartsValue(Parts("0", [], [])) == DecimalValue(0, 0);
      DecimalOfZero(exponent);
    } else {
      var r := Strip(Abs(mantissa), exponent);
      SignificandPartsValue(Digits(r.mantissa), r.exponent);
      StripValue(Abs(mantissa), exponent);
    }
  }

  /** A numeral with an optional minus sign parses to its signed value. */
  lemma {:induction false} ParseSignedParts(negative: bool, q: Parts, v: real)
    requires WellFormed(q) && PartsValue(q) == v
    ensures ParseFloat((if negative then "-" else "") + PartsText(q)) == Finite(if negative then -v else v)
  {
    if negative {
      ParseMinusParts(q);
    } else {
      assert "" + PartsText(q) == PartsText(q);
      ParseParts(q);
    }
  }

  lemma {:induction false} SignedValue(mantissa: int, exponent: int)
    ensures (if mantissa < 0 then -DecimalValue(Abs(mantissa), exponent) else DecimalValue(Abs(mantissa), exponent))
         == DecimalValue(mantissa, exponent)
  {
    if mantissa < 0 {
      DecimalNegate(-mantissa, exponent);
    }
  }

  /** `parseFloat(String(x)) == x`: Number::toString round-trips. */
  lemma {:induction false} ParseNumberText(mantissa: int, exponent: int)
    ensures ParseFloat(NumberText(mantissa, exponent)) == Finite(DecimalValue(mantissa, exponent))
  {
    NumberPartsValue(mantissa, exponent);
    ParseSignedParts(mantissa < 0, NumberParts(mantissa, exponent), DecimalValue(Abs(mantissa), exponent));
    SignedValue(mantissa, exponent);
  }

  /** The characters Number::toString uses. */
  predicate IsNumeralChar(c: char) {
    IsDigit(c) || c == '.' || c == '-' || c == '+' || c == 'e'
  }

  predicate AllNumeral(s: string) {
    forall i :: 0 <= i < |s| ==> IsNumeralChar(s[i])
  }

  lemma {:induction false} AllNumeralAppend(a: string, b: string)
    requires AllNumeral(a) && AllNumeral(b)
    ensures AllNumeral(a + b)
  {
  }

  lemma {:induction false} DecimalTextNumeral(a: string, b: string, x: string)
    requires AllNumeral(a) && AllNumeral(b) && AllNumeral(x)
    ensures AllNumeral(DecimalText(a, b, x))
  {
    AllNumeralAppend(".", b);
    AllNumeralAppend(a, if b == [] then [] else "." + b);
    AllNumeralAppend(a + (if b == [] then [] else "." + b), x);
  }

  lemma {:induction false} PartsTextNumeral(q: Parts)
    requires WellFormed(q)
    requires q.exp == [] || exists x :: q.exp == ExponentText(x)
    ensures AllNumeral(PartsText(q))
  {
    assert AllNumeral(q.exp) by {
      if q.exp != [] {
        var x :| q.exp == ExponentText(x);
        AllNumeralAppend("e" + (if x < 0 then "-" else "+"), Digits(Abs(x)));
      }
    }
    DecimalTextNumeral(q.whole, q.fraction, q.exp);
  }

  /** Number::toString writes only digits, the point, signs and 'e'. */
  lemma {:induction false} NumberTextNumeral(mantissa: int, exponent: int)
    ensures AllNumeral(NumberText(mantissa, exponent))
  {
    var q := NumberParts(mantissa, exponent);
    if mantissa != 0 {
      var r := Strip(Abs(mantissa), exponent);
      var d := Digits(r.mantissa);
      var n := r.exponent + |d|;
      if n <= -6 || 21 < n {
        assert q.exp == ExponentText(n - 1);
      }
    }
    PartsTextNumeral(q);
    AllNumeralAppend(if mantissa < 0 then "-" else "", PartsText(q));
  }

  // ---------------------------------------------------------------------
  // toFixed(2)

  /** `x.toFixed(2)` for 0 <= x: n is the integer nearest to 100x (the larger
      of two equally near), written with at least three digits and a point
      before the last two. */
  function FixedTwo(x: real): string
    requires 0.0 <= x
  {
    var p := PaddedDigits(Hundredths(x));
    DecimalText(p[..|p| - 2], p[|p| - 2..], [])
  }

  /** The integer nearest to 100x, halves rounded up. */
  function Hundredths(x: real): (n: nat)
    requires 0.0 <= x
    ensures x * 100.0 - 0.5 < n as real <= x * 100.0 + 0.5
  {
    (x * 100.0 + 0.5).Floor
  }

  /** `n` in decimal, padded with zeros to at least three digits. */
  function PaddedDigits(n: nat): (p: string)
    ensures |p| >= 3 && AllDigits(p)
    ensures DigitsValue(p) == n
  {
    var m := Digits(n);
    if |m| <= 2 then
      LeadingZerosValue(3 - |m|, m);
      Zeros(3 - |m|) + m
    else m
  }

  lemma {:induction false} HundredthsValue(n: nat)
    ensures DecimalValue(n, -2) == n as real / 100.0
  {
    assert DecimalValue(n, -1) == n as real / 10.0;
  }

  /** The text `toFixed(2)` produces has exactly two digits after its point
      and at least one before it. */
  lemma {:induction false} FixedTwoShape(x: real)
    requires 0.0 <= x
    ensures var t := FixedTwo(x);
      && |t| >= 4 && t[|t| - 3] == '.'
      && AllDigits(t[..|t| - 3]) && AllDigits(t[|t| - 2..])
  {
    var p := PaddedDigits(Hundredths(x));
    var a, b := p[..|p| - 2], p[|p| - 2..];
    var t := FixedTwo(x);
    assert t == a + "." + b;
    assert t[..|t| - 3] == a;
    assert t[|t| - 2..] == b;
  }

  /** `parseFloat` reads the text of `toFixed(2)` back as x rounded to the
      nearest hundredth. */
  lemma {:induction false} FixedTwoRoundTrip(x: real)
    requires 0.0 <= x
    ensures ParseFloat(FixedTwo(x)).Finite?
    ensures var r := ParseFloat(FixedTwo(x)).r;
      && r == Hundredths(x) as real / 100.0
      && x - 0.005 < r <= x + 0.005
  {
    var n := Hundredths(x);
    var p := PaddedDigits(n);
    var a, b := p[..|p| - 2], p[|p| - 2..];
    assert a + b == p;
    ParseDecimalText(a, b, []);
    HundredthsValue(n);
  }
}
