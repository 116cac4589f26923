/** The cell values the dashboard handles and the JavaScript operations it
    applies to them: `String(v)`, truthiness and `||`, strict equality, and
    `parseFloat(v)`, which reads `String(v)`. */
module JsValues {
  import opened JsText
  import opened JsNumber

  /** A decoded spreadsheet cell, or the result of reading an absent key.
      A number is held as its shortest decimal form mantissa * 10^exponent. */
  datatype Value = Str(s: string) | Num(mantissa: int, exponent: int) | Undefined

  /** `String(v)`. */
  function ToStr(v: Value): string {
    match v
    case Str(s) => s
    case Num(m, e) => NumberText(m, e)
    case Undefined => "undefined"
  }

  /** JavaScript truthiness: the empty string, zero and undefined are falsy. */
  predicate Truthy(v: Value) {
    match v
    case Str(s) => s != ""
    case Num(m, _) => m != 0
    case Undefined => false
  }

  /** `a || b`: one of its operands, truthy exactly when either is, and
      the left one whenever that is truthy. */
  function Or(a: Value, b: Value): (r: Value)
    ensures r == a || r == b
    ensures Truthy(r) <==> Truthy(a) || Truthy(b)
    ensures Truthy(a) ==> r == a
    ensures !Truthy(a) ==> r == b
  {
    if Truthy(a) then a else b
  }

  /** `a === b` (numbers compare by value). */
  predicate StrictEquals(a: Value, b: Value) {
    match (a, b)
    case (Str(s), Str(t)) => s == t
    case (Num(m, e), Num(n, f)) => DecimalValue(m, e) == DecimalValue(n, f)
    case (Undefined, Undefined) => true
    case _ => false
  }

  lemma {:induction false} StrictEqualsIsEquivalence(a: Value, b: Value, c: Value)
    ensures StrictEquals(a, a)
    ensures StrictEquals(a, b) ==> StrictEquals(b, a)
    ensures StrictEquals(a, b) && StrictEquals(b, c) ==> StrictEquals(a, c)
  {
  }

  /** `parseFloat(v)`, which first converts its argument with `String`. */
  function ParseValue(v: Value): Float {
    ParseFloat(ToStr(v))
  }

  /** `parseFloat(v) || 0`: NaN and zero become 0, every other result,
      infinities included, is kept. */
  function ScoreOrZero(v: Value): (f: Float)
    ensures !f.NaN?
    ensures var p := ParseValue(v); (p.NaN? || p == Finite(0.0)) ==> f == Finite(0.0)
    ensures var p := ParseValue(v); !(p.NaN? || p == Finite(0.0)) ==> f == p
  {
    var p := ParseValue(v);
    if p.NaN? || p == Finite(0.0) then Finite(0.0) else p
  }

  /** A number cell parses back to its own value. */
  lemma {:induction false} ParseNum(m: int, e: int)
    ensures ParseValue(Num(m, e)) == Finite(DecimalValue(m, e))
  {
    ParseNumberText(m, e);
  }

  /** Text with no number at its front parses to NaN. */
  lemma {:induction false} ParseNoNumber(s: string)
    requires s == [] || (s[0] != '.' && s[0] != '-' && s[0] != '+' && s[0] != 'I'
                         && !IsDigit(s[0]) && !IsWhitespace(s[0]))
    ensures ParseFloat(s) == NaN
  {
    assert LeadingWhitespace(s) == 0;
    assert DigitsEnd(s, 0) == 0;
  }

  /** An empty cell, an absent key and "n/a" all parse to NaN. */
  lemma {:induction false} ParseBlanks()
    ensures ParseValue(Str("")) == NaN
    ensures ParseValue(Undefined) == NaN
    ensures ParseValue(Str("n/a")) == NaN
  {
    ParseNoNumber("");
    ParseNoNumber("undefined");
    ParseNoNumber("n/a");
  }

  /** Any number, however far outside 0..10, passes `|| 0` unchanged unless it is zero. */
  lemma {:induction false} ScoreOfNum(m: int, e: int)
    ensures m != 0 ==> ScoreOrZero(Num(m, e)) == Finite(DecimalValue(m, e))
    ensures m == 0 ==> ScoreOrZero(Num(m, e)) == Finite(0.0)
  {
    ParseNum(m, e);
    if m != 0 {
      DecimalNonZero(m, e);
    } else {
      DecimalOfZero(e);
    }
  }

  /** Unparsable cells become 0 on the chart paths. */
  lemma {:induction false} ScoreOfBlanks()
    ensures ScoreOrZero(Str("")) == Finite(0.0)
    ensures ScoreOrZero(Undefined) == Finite(0.0)
    ensures ScoreOrZero(Str("n/a")) == Finite(0.0)
  {
    ParseBlanks();
  }

  /** `String(v).toUpperCase().includes('OVERALL')`. */
  predicate MentionsOverall(v: Value) {
    Contains(ToUpper(ToStr(v)), "OVERALL")
  }

  /** Only string cells can mention OVERALL: a number is written with digits,
      '.', signs and 'e', and "undefined" has no 'O'. */
  lemma {:induction false} OnlyStringsMentionOverall(v: Value)
    ensures MentionsOverall(v) ==> v.Str?
  {
    if !v.Str? {
      var t := ToStr(v);
      assert forall i :: 0 <= i < |t| ==> UpperChar(t[i]) != 'O' by {
        if v.Num? {
          NumberTextNumeral(v.mantissa, v.exponent);
        }
      }
      assert 'O' !in ToUpper(t);
      if MentionsOverall(v) {
        ContainsChars(ToUpper(t), "OVERALL", 'O');
      }
    }
  }

  /** Whether a string cell mentions OVERALL does not depend on its case. */
  lemma {:induction false} MentionsOverallIgnoresCase(s: string)
    ensures MentionsOverall(Str(ToLower(s))) == MentionsOverall(Str(s))
    ensures MentionsOverall(Str(ToUpper(s))) == MentionsOverall(Str(s))
  {
    UpperForgetsCase(s);
  }
}
