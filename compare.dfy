/** The comparison page: `ExcelComparisonDashboard` shows one sheet of the
    comparison workbook at a time as a table, with a formatted header, the
    OVERALL rows flagged, the first column styled as a model or category
    name and each score cell coloured by its band and printed with two
    decimals. */
module Compare {
  import opened JsText
  import opened JsNumber
  import opened JsValues
  import opened Sheets

  // ---------------------------------------------------------------------
  // Cells

  /** `isNumericScore`: the cell parses to a finite number from 0 to 10. */
  predicate IsNumericScore(v: Value) {
    var p := ParseValue(v);
    p.Finite? && 0.0 <= p.r <= 10.0
  }

  /** A number cell is a score exactly when its value lies in 0..10. */
  lemma {:induction false} NumericScoreOfNum(m: int, e: int)
    ensures IsNumericScore(Num(m, e)) <==> 0.0 <= DecimalValue(m, e) <= 10.0
  {
    ParseNum(m, e);
  }

  /** Empty cells, absent keys and "n/a" are not scores. */
  lemma {:induction false} BlanksAreNotScores()
    ensures !IsNumericScore(Str(""))
    ensures !IsNumericScore(Undefined)
    ensures !IsNumericScore(Str("n/a"))
  {
    ParseBlanks();
  }

  /** The CSS classes the table uses. */
  datatype CellClass = ModelName | CategoryName | Excellent | Good | Fair

  /** The band of a parsed score: `>= 8.5` excellent, `>= 6.5` good, and
      fair otherwise, NaN included since every comparison with it fails. */
  function ClassOf(f: Float): (c: CellClass)
    ensures c == Excellent || c == Good || c == Fair
  {
    match f
    case Finite(r) => if r >= 8.5 then Excellent else if r >= 6.5 then Good else Fair
    case PosInf => Excellent
    case NegInf => Fair
    case NaN => Fair
  }

  /** `getScoreClass`. */
  function GetScoreClass(v: Value): CellClass {
    ClassOf(ParseValue(v))
  }

  /** The bands of a score: each class covers exactly its interval. */
  lemma {:induction false} ScoreBands(v: Value)
    requires IsNumericScore(v)
    ensures var r := ParseValue(v).r;
      && (GetScoreClass(v) == Excellent <==> 8.5 <= r)
      && (GetScoreClass(v) == Good <==> 6.5 <= r < 8.5)
      && (GetScoreClass(v) == Fair <==> r < 6.5)
  {
  }

  function Rank(c: CellClass): nat {
    match c
    case Excellent => 2
    case Good => 1
    case _ => 0
  }

  /** A higher score never gets a lower band. */
  lemma {:induction false} ClassOfMonotone(r: real, s: real)
    requires r <= s
    ensures Rank(ClassOf(Finite(r))) <= Rank(ClassOf(Finite(s)))
  {
  }

  /** The band edges: 8.5 and 6.5 belong to the upper band. */
  lemma {:induction false} BandEdges()
    ensures ClassOf(Finite(8.5)) == Excellent
    ensures ClassOf(Finite(8.49)) == Good
    ensures ClassOf(Finite(6.5)) == Good
    ensures ClassOf(Finite(6.49)) == Fair
    ensures ClassOf(NaN) == Fair
  {
  }

  /** `formatCellValue`: a score with two decimals, anything else as `String(value)`. */
  function FormatCellValue(v: Value): string {
    if IsNumericScore(v) then FixedTwo(ParseValue(v).r) else ToStr(v)
  }

  /** A score is shown as digits, a point and two digits, and the text reads
      back as the score rounded to the nearest hundredth. */
  lemma {:induction false} FormatScore(v: Value)
    requires IsNumericScore(v)
    ensures var t := FormatCellValue(v);
      && |t| >= 4 && t[|t| - 3] == '.'
      && AllDigits(t[..|t| - 3]) && AllDigits(t[|t| - 2..])
      && ParseFloat(t).Finite?
      && ParseValue(v).r - 0.005 < ParseFloat(t).r <= ParseValue(v).r + 0.005
      && ParseFloat(t).r == Hundredths(ParseValue(v).r) as real / 100.0
  {
    FixedTwoText(FormatCellValue(v), ParseValue(v).r);
  }

  /** The facts about `toFixed(2)` for a text `t` known to be its result. */
  lemma {:induction false} FixedTwoText(t: string, x: real)
    requires 0.0 <= x && t == FixedTwo(x)
    ensures && |t| >= 4 && t[|t| - 3] == '.'
      && AllDigits(t[..|t| - 3]) && AllDigits(t[|t| - 2..])
      && ParseFloat(t).Finite?
      && x - 0.005 < ParseFloat(t).r <= x + 0.005
      && ParseFloat(t).r == Hundredths(x) as real / 100.0
  {
    FixedTwoShape(x);
    FixedTwoRoundTrip(x);
  }

  /** Anything that is not a score is shown as `String(value)`, so "n/a" stays "n/a". */
  lemma {:induction false} FormatNonScore(v: Value)
    requires !IsNumericScore(v)
    ensures FormatCellValue(v) == ToStr(v)
    ensures FormatCellValue(Str("n/a")) == "n/a"
  {
    BlanksAreNotScores();
  }

  /** Formatting is stable: the shown text of a score, read as a cell, is a
      score again and is shown the same way. */
  lemma {:induction false} FormatIdempotent(v: Value)
    requires IsNumericScore(v)
    ensures IsNumericScore(Str(FormatCellValue(v)))
    ensures FormatCellValue(Str(FormatCellValue(v))) == FormatCellValue(v)
  {
    FixedTwoStable(ParseValue(v).r, FormatCellValue(v));
  }

  /** The text `toFixed(2)` makes of a score is a score that formats to itself. */
  lemma {:induction false} FixedTwoStable(x: real, t: string)
    requires 0.0 <= x <= 10.0 && t == FixedTwo(x)
    ensures IsNumericScore(Str(t)) && FormatCellValue(Str(t)) == t
  {
    FixedTwoRoundTrip(x);
    var n := Hundredths(x);
    var q := n as real / 100.0;
    assert ParseValue(Str(t)) == Finite(q);
    assert n <= 1000;
    assert Hundredths(q) == n;
  }

  // ---------------------------------------------------------------------
  // Column names

  /** `.replace(/([A-Z])/g, ' $1')`: a space before every capital letter. */
  function SpaceBeforeCapitals(s: string): (t: string)
    ensures |t| >= |s|
    decreases |s|
  {
    if s == [] then []
    else (if IsAsciiUpper(s[0]) then [' ', s[0]] else [s[0]]) + SpaceBeforeCapitals(s[1..])
  }

  /** `.replace(/^./, str => str.toUpperCase())`: the first character upper
      cased, unless it is a line terminator, which `.` does not match. */
  function CapitalizeFirst(s: string): (t: string)
    ensures |t| == |s|
  {
    if s != [] && !IsLineTerminator(s[0]) then [UpperChar(s[0])] + s[1..] else s
  }

  /** `formatColumnName`. */
  function FormatColumnName(name: string): (t: string)
    ensures t != [] ==> !IsWhitespace(t[0]) && !IsWhitespace(t[|t| - 1])
  {
    Trim(CapitalizeFirst(SpaceBeforeCapitals(name)))
  }

  predicate NoWhitespace(s: string) {
    forall i :: 0 <= i < |s| ==> !IsWhitespace(s[i])
  }

  /** `s` without its spaces. */
  function RemoveSpaces(s: string): (t: string)
    ensures ' ' !in t
    decreases |s|
  {
    if s == [] then [] else (if s[0] == ' ' then [] else [s[0]]) + RemoveSpaces(s[1..])
  }

  lemma {:induction false} RemoveSpacesAppend(a: string, b: string)
    ensures RemoveSpaces(a + b) == RemoveSpaces(a) + RemoveSpaces(b)
    decreases |a|
  {
    if a != [] {
      assert (a + b)[1..] == a[1..] + b;
      RemoveSpacesAppend(a[1..], b);
    } else {
      assert a + b == b;
    }
  }

  /** Taking the inserted spaces out again gives back a name without spaces. */
  lemma {:induction false} SpacesAreInserted(s: string)
    requires ' ' !in s
    ensures RemoveSpaces(SpaceBeforeCapitals(s)) == s
    decreases |s|
  {
    if s != [] {
      assert ' ' !in s[1..];
      SpacesAreInserted(s[1..]);
      var head := if IsAsciiUpper(s[0]) then [' ', s[0]] else [s[0]];
      RemoveSpacesAppend(head, SpaceBeforeCapitals(s[1..]));
      assert RemoveSpaces(head) == [s[0]];
      assert s == [s[0]] + s[1..];
    }
  }

  /** In a name without white space, the only white space after inserting is
      the inserted spaces, each right before a capital; the last character
      is the name's own. */
  lemma {:induction false} InsertedSpacesPrecedeCapitals(s: string)
    requires NoWhitespace(s)
    ensures var t := SpaceBeforeCapitals(s);
      && (forall k :: 0 <= k < |t| && IsWhitespace(t[k]) ==> t[k] == ' ' && k + 1 < |t| && IsAsciiUpper(t[k + 1]))
      && (s != [] ==> t != [] && t[|t| - 1] == s[|s| - 1])
      && (s == [] ==> t == [])
    decreases |s|
  {
    if s != [] {
      var rest := s[1..];
      assert NoWhitespace(rest) by {
        forall i | 0 <= i < |rest| ensures !IsWhitespace(rest[i]) {
          assert rest[i] == s[i + 1];
        }
      }
      InsertedSpacesPrecedeCapitals(rest);
      var head := if IsAsciiUpper(s[0]) then [' ', s[0]] else [s[0]];
      var tr := SpaceBeforeCapitals(rest);
      var t := SpaceBeforeCapitals(s);
      assert t == head + tr;
      assert !IsWhitespace(s[0]);
      forall k | 0 <= k < |t| && IsWhitespace(t[k])
        ensures t[k] == ' ' && k + 1 < |t| && IsAsciiUpper(t[k + 1])
      {
        if k >= |head| {
          assert t[k] == tr[k - |head|];
          assert t[k + 1] == tr[k - |head| + 1];
        } else {
          assert k == 0 && |head| == 2;
        }
      }
      if rest == [] {
        assert t[|t| - 1] == s[0];
      } else {
        assert t[|t| - 1] == tr[|tr| - 1];
      }
    }
  }

  /** One step of inserting spaces. */
  lemma {:induction false} SpaceBeforeCapitalsHead(s: string)
    requires s != []
    ensures SpaceBeforeCapitals(s) == (if IsAsciiUpper(s[0]) then [' ', s[0]] else [s[0]]) + SpaceBeforeCapitals(s[1..])
  {
  }

  /** Upper casing the first character of a text that starts with it. */
  lemma {:induction false} CapitalizeHead(x: char, tr: string)
    requires !IsLineTerminator(x)
    ensures CapitalizeFirst([x] + tr) == [UpperChar(x)] + tr
  {
    assert ([x] + tr)[1..] == tr;
  }

  /** Spaces are only inserted before characters: the last character stays last. */
  lemma {:induction false} SpaceBeforeCapitalsLast(s: string)
    requires s != []
    ensures SpaceBeforeCapitals(s) != [] && SpaceBeforeCapitals(s)[|SpaceBeforeCapitals(s)| - 1] == s[|s| - 1]
    decreases |s|
  {
    var head := if IsAsciiUpper(s[0]) then [' ', s[0]] else [s[0]];
    var tr := SpaceBeforeCapitals(s[1..]);
    assert SpaceBeforeCapitals(s) == head + tr;
    if |s| > 1 {
      SpaceBeforeCapitalsLast(s[1..]);
      assert (head + tr)[|head + tr| - 1] == tr[|tr| - 1];
    } else {
      assert tr == [];
    }
  }

  /** Taking the spaces out undoes inserting them, whatever spaces the name had. */
  lemma {:induction false} RemoveInsertedSpaces(s: string)
    ensures RemoveSpaces(SpaceBeforeCapitals(s)) == RemoveSpaces(s)
    decreases |s|
  {
    if s != [] {
      RemoveInsertedSpaces(s[1..]);
      var head := if IsAsciiUpper(s[0]) then [' ', s[0]] else [s[0]];
      RemoveSpacesAppend(head, SpaceBeforeCapitals(s[1..]));
      assert RemoveSpaces(head) == RemoveSpaces([s[0]]);
      assert s == [s[0]] + s[1..];
      RemoveSpacesAppend([s[0]], s[1..]);
    }
  }

  /** A word that does not end in white space still does not once spaces are
      inserted, and neither does the word with its head upper cased. */
  lemma {:induction false} WordEnds(x: char, tr: string, rest: string)
    requires !IsWhitespace(x) && (rest != [] ==> !IsWhitespace(rest[|rest| - 1])) && tr == SpaceBeforeCapitals(rest)
    ensures var u := [UpperChar(x)] + tr; !IsWhitespace(u[0]) && !IsWhitespace(u[|u| - 1])
  {
    var u := [UpperChar(x)] + tr;
    if rest != [] {
      SpaceBeforeCapitalsLast(rest);
      assert u[|u| - 1] == tr[|tr| - 1] == rest[|rest| - 1];
    } else {
      assert tr == [];
    }
  }

  /** A header that neither starts nor ends with white space is shown with
      its first letter upper cased and a space before each later capital. */
  lemma {:induction false} FormatColumnNameOfWord(s: string)
    requires s != [] && !IsWhitespace(s[0]) && !IsWhitespace(s[|s| - 1])
    ensures FormatColumnName(s) == [UpperChar(s[0])] + SpaceBeforeCapitals(s[1..])
  {
    var rest := s[1..];
    assert rest != [] ==> rest[|rest| - 1] == s[|s| - 1];
    var tr := SpaceBeforeCapitals(rest);
    var u := [UpperChar(s[0])] + tr;
    assert !IsWhitespace(s[0]);
    WordEnds(s[0], tr, rest);
    if IsAsciiUpper(s[0]) {
      var c := [' '] + u;
      SpaceBeforeCapitalsHead(s);
      assert SpaceBeforeCapitals(s) == [' '] + ([s[0]] + tr);
      CapitalizeHead(' ', [s[0]] + tr);
      assert c == [' '] + ([s[0]] + tr);
      TrimExact(c, 1);
      assert c[1..] == u;
    } else {
      SpaceBeforeCapitalsHead(s);
      CapitalizeHead(s[0], tr);
      TrimExact(u, 0);
      assert u[0..] == u;
    }
  }

  /** Taking the spaces out of a formatted header that neither starts nor
      ends with white space gives the header with its first letter upper
      cased, without its spaces: formatting only inserts spaces and
      capitalises. A header without white space comes back exactly. */
  lemma {:induction false} FormatColumnNameRoundTrip(s: string)
    requires s != [] && !IsWhitespace(s[0]) && !IsWhitespace(s[|s| - 1])
    ensures RemoveSpaces(FormatColumnName(s)) == RemoveSpaces([UpperChar(s[0])] + s[1..])
    ensures NoWhitespace(s) ==> RemoveSpaces(FormatColumnName(s)) == [UpperChar(s[0])] + s[1..]
  {
    FormatColumnNameOfWord(s);
    RemoveInsertedSpaces(s[1..]);
    RemoveSpacesAppend([UpperChar(s[0])], SpaceBeforeCapitals(s[1..]));
    RemoveSpacesAppend([UpperChar(s[0])], s[1..]);
    if NoWhitespace(s) {
      assert ' ' !in s[1..] by {
        forall i | 0 <= i < |s[1..]| ensures s[1..][i] != ' ' {
          assert s[1..][i] == s[i + 1];
        }
      }
      SpacesAreInserted(s[1..]);
    }
  }

  /** Inserting spaces works character by character. */
  lemma {:induction false} SpaceBeforeCapitalsAppend(a: string, b: string)
    ensures SpaceBeforeCapitals(a + b) == SpaceBeforeCapitals(a) + SpaceBeforeCapitals(b)
    decreases |a|
  {
    if a == [] {
      assert a + b == b;
    } else {
      assert (a + b)[0] == a[0];
      assert (a + b)[1..] == a[1..] + b;
      SpaceBeforeCapitalsAppend(a[1..], b);
    }
  }

  /** A text that spaces were inserted into and that starts with an inserted
      space is shown without that space. */
  lemma {:induction false} FormatSpaced(s: string, w: string)
    requires SpaceBeforeCapitals(s) == [' '] + w
    requires w != [] && !IsWhitespace(w[0]) && !IsWhitespace(w[|w| - 1])
    ensures FormatColumnName(s) == w
  {
    CapitalizeHead(' ', w);
    var c := [' '] + w;
    TrimExact(c, 1);
    assert c[1..] == w;
  }

  /** The pieces of two spaced words joined by a space. */
  lemma {:induction false} JoinSpacedWords(x: char, sa: string, y: char, sb: string)
    ensures ([' ', x] + sa) + ([' '] + ([' ', y] + sb)) == [' '] + ([x] + sa + "  " + [y] + sb)
  {
  }

  /** A header that is already two Title Case words, such as "Overall Score",
      is shown with two spaces between them: the existing space and the one
      inserted before the second capital. */
  lemma {:induction false} FormatTitleWords(a: string, b: string)
    requires a != [] && NoWhitespace(a) && IsAsciiUpper(a[0])
    requires b != [] && NoWhitespace(b) && IsAsciiUpper(b[0])
    ensures FormatColumnName(a + " " + b) ==
            [a[0]] + SpaceBeforeCapitals(a[1..]) + "  " + [b[0]] + SpaceBeforeCapitals(b[1..])
  {
    var w := [a[0]] + SpaceBeforeCapitals(a[1..]) + "  " + [b[0]] + SpaceBeforeCapitals(b[1..]);
    SpacedTitleWords(a, b);
    InsertedSpacesPrecedeCapitals(b);
    var tb := SpaceBeforeCapitals(b);
    assert w[|w| - 1] == tb[|tb| - 1];
    assert !IsWhitespace(b[|b| - 1]);
    FormatSpaced(a + " " + b, w);
  }

  /** Inserting spaces into two capitalised words joined by a space. */
  lemma {:induction false} SpacedTitleWords(a: string, b: string)
    requires a != [] && IsAsciiUpper(a[0]) && b != [] && IsAsciiUpper(b[0])
    ensures SpaceBeforeCapitals(a + " " + b) ==
            [' '] + ([a[0]] + SpaceBeforeCapitals(a[1..]) + "  " + [b[0]] + SpaceBeforeCapitals(b[1..]))
  {
    var sb0 := " " + b;
    assert a + " " + b == a + sb0;
    SpaceBeforeCapitalsAppend(a, sb0);
    SpaceBeforeCapitalsHead(sb0);
    assert sb0[0] == ' ' && sb0[1..] == b;
    SpaceBeforeCapitalsHead(a);
    SpaceBeforeCapitalsHead(b);
    JoinSpacedWords(a[0], SpaceBeforeCapitals(a[1..]), b[0], SpaceBeforeCapitals(b[1..]));
  }

  /** A text without capitals gets no spaces. */
  lemma {:induction false} NoCapitals(s: string)
    requires forall i :: 0 <= i < |s| ==> !IsAsciiUpper(s[i])
    ensures SpaceBeforeCapitals(s) == s
    decreases |s|
  {
    if s != [] {
      assert forall i :: 0 <= i < |s[1..]| ==> !IsAsciiUpper(s[1..][i]) by {
        forall i | 0 <= i < |s[1..]| ensures !IsAsciiUpper(s[1..][i]) {
          assert s[1..][i] == s[i + 1];
        }
      }
      NoCapitals(s[1..]);
      SpaceBeforeCapitalsHead(s);
      assert s == [s[0]] + s[1..];
    }
  }

  /** Text made of lower-case ASCII letters. */
  predicate LowerWord(s: string) {
    forall i :: 0 <= i < |s| ==> IsAsciiLower(s[i])
  }

  /** Two lower-case words, the second starting with a capital, as in
      "answerRelevance", become two words of Title Case. */
  lemma {:induction false} FormatCamelPair(x: char, a: string, y: char, b: string)
    requires IsAsciiLower(x) && LowerWord(a) && IsAsciiUpper(y) && LowerWord(b)
    ensures FormatColumnName([x] + a + [y] + b) == [UpperChar(x)] + a + [' ', y] + b
  {
    var s := [x] + a + [y] + b;
    assert s == [x] + a + ([y] + b);
    assert NoWhitespace(s) by {
      forall i | 0 <= i < |s| ensures !IsWhitespace(s[i]) {
        if i == 0 {
        } else if i <= |a| {
          assert s[i] == a[i - 1];
        } else if i == |a| + 1 {
        } else {
          assert s[i] == b[i - |a| - 2];
        }
      }
    }
    var t := [y] + b;
    ConsTail(x, a, t);
    assert t[0] == y && t[1..] == b;
    FormatColumnNameOfWord(s);
    NoCapitals(a);
    NoCapitals(b);
    SpaceBeforeCapitalsHead(t);
    SpaceBeforeCapitalsAppend(a, t);
    var u := SpaceBeforeCapitals(s[1..]);
    assert u == a + ([' ', y] + b);
    JoinCamelWords(UpperChar(x), a, y, b);
  }

  /** The pieces of a spaced camelCase pair. */
  lemma {:induction false} JoinCamelWords(c: char, a: string, y: char, b: string)
    ensures [c] + (a + ([' ', y] + b)) == [c] + a + [' ', y] + b
  {
  }

  /** The tail of a text built from its first character. */
  lemma {:induction false} ConsTail(x: char, a: string, t: string)
    ensures ([x] + a + t)[0] == x && ([x] + a + t)[1..] == a + t
  {
    assert [x] + a + t == [x] + (a + t);
  }

  /** "answerRelevance" is shown as "Answer Relevance". */
  lemma {:induction false} FormatCamelCase()
    ensures FormatColumnName("answerRelevance") == "Answer Relevance"
  {
    assert "answerRelevance" == ['a'] + "nswer" + ['R'] + "elevance";
    assert [UpperChar('a')] + "nswer" + [' ', 'R'] + "elevance" == "Answer Relevance";
    FormatCamelPair('a', "nswer", 'R', "elevance");
  }

  /** Two capitalised lower-case words joined by a space, as in "Overall
      Score", keep their letters and get a second space between them. */
  lemma {:induction false} FormatTitlePair(x: char, a: string, y: char, b: string)
    requires IsAsciiUpper(x) && LowerWord(a) && IsAsciiUpper(y) && LowerWord(b)
    ensures FormatColumnName([x] + a + " " + [y] + b) == [x] + a + "  " + [y] + b
  {
    var wa, wb := [x] + a, [y] + b;
    ConsTail(x, a, []);
    ConsTail(y, b, []);
    assert wa[0] == x && wa[1..] == a && wb[0] == y && wb[1..] == b by {
      assert wa == [x] + a + [] && wb == [y] + b + [];
    }
    LowerWordNoWhitespace(x, a);
    LowerWordNoWhitespace(y, b);
    NoCapitals(a);
    NoCapitals(b);
    assert [x] + a + " " + [y] + b == wa + " " + wb;
    FormatTitleWords(wa, wb);
  }

  /** A capital followed by lower-case letters holds no white space. */
  lemma {:induction false} LowerWordNoWhitespace(x: char, a: string)
    requires IsAsciiUpper(x) && LowerWord(a)
    ensures NoWhitespace([x] + a)
  {
    var w := [x] + a;
    forall i | 0 <= i < |w| ensures !IsWhitespace(w[i]) {
      if i > 0 {
        assert w[i] == a[i - 1];
      }
    }
  }

  /** "Overall Score" is shown as "Overall  Score", with two spaces. */
  lemma {:induction false} FormatTitleCase()
    ensures FormatColumnName("Overall Score") == "Overall  Score"
  {
    assert "Overall Score" == ['O'] + "verall" + " " + ['S'] + "core";
    assert ['O'] + "verall" + "  " + ['S'] + "core" == "Overall  Score";
    FormatTitlePair('O', "verall", 'S', "core");
  }

  // ---------------------------------------------------------------------
  // The table

  datatype TableCell = TableCell(cls: Option<CellClass>, text: string)

  /** A table row: whether it carries `compare-overall-row`, and its cells. */
  datatype TableRow = TableRow(overall: bool, cells: seq<TableCell>)

  /** The cell for column `j` holding `value` on sheet `sheet`: the first
      column is a model or category name, a later score is coloured by its
      band, and every cell shows its formatted value. */
  function CellFor(j: nat, sheet: string, value: Value): TableCell {
    var cls :=
      if j == 0 then Some(if sheet == ModelSheet then ModelName else CategoryName)
      else if IsNumericScore(value) then Some(GetScoreClass(value))
      else None;
    TableCell(cls, FormatCellValue(value))
  }

  /** The cell for column `j` of `row`, which reads `row[key]` for that column's key. */
  function CellOf(row: Row, j: nat, sheet: string): TableCell
    requires j < |row|
  {
    CellFor(j, sheet, Get(row, row[j].0))
  }

  /** Extending a prefix of `s` by its next element. */
  lemma PrefixStep<T>(s: seq<T>, j: nat, x: T)
    requires j < |s| && s[j] == x
    ensures s[..j + 1] == s[..j] + [x]
  {
  }

  /** The prefix of `s` of full length is `s`. */
  lemma PrefixAll<T>(s: seq<T>)
    ensures s[..|s|] == s
  {
  }

  /** The cells of `row` in column order. */
  function RowCells(row: Row, sheet: string): (cells: seq<TableCell>)
    ensures |cells| == |row|
    ensures forall j :: 0 <= j < |row| ==> cells[j] == CellOf(row, j, sheet)
  {
    seq(|row|, j requires 0 <= j < |row| => CellOf(row, j, sheet))
  }

  function RowOf(row: Row, sheet: string): TableRow {
    TableRow(IsOverallRow(row), RowCells(row, sheet))
  }

  /** The rows `createTableBody` appends for `rows`. */
  function TableBody(rows: seq<Row>, sheet: string): (body: seq<TableRow>)
    ensures |body| == |rows|
    ensures forall i :: 0 <= i < |rows| ==> body[i] == RowOf(rows[i], sheet)
  {
    seq(|rows|, i requires 0 <= i < |rows| => RowOf(rows[i], sheet))
  }

  /** `createTableBody`: one table row per sheet row. */
  method CreateTableBody(rows: seq<Row>, sheet: string) returns (body: seq<TableRow>)
    ensures body == TableBody(rows, sheet)
  {
    body := [];
    var i := 0;
    while i < |rows|
      invariant 0 <= i <= |rows|
      invariant body == TableBody(rows, sheet)[..i]
    {
      var tr := CreateRow(rows[i], sheet);
      PrefixStep(TableBody(rows, sheet), i, tr);
      body := body + [tr];
      i := i + 1;
    }
    PrefixAll(TableBody(rows, sheet));
  }

  /** The body of the `data.forEach` callback: the row's OVERALL flag and one
      cell per column. */
  method CreateRow(row: Row, sheet: string) returns (tr: TableRow)
    ensures tr == RowOf(row, sheet)
  {
    var overall := IsOverallRow(row);
    var cells: seq<TableCell> := [];
    var j := 0;
    while j < |row|
      invariant 0 <= j <= |row|
      invariant |cells| == j
      invariant cells == RowCells(row, sheet)[..j]
    {
      var cell := CreateCell(j, sheet, Get(row, row[j].0));
      PrefixStep(RowCells(row, sheet), j, cell);
      cells := cells + [cell];
      j := j + 1;
    }
    PrefixAll(RowCells(row, sheet));
    tr := TableRow(overall, cells);
  }

  /** One cell of the inner `Object.keys(row).forEach` callback. */
  method CreateCell(j: nat, sheet: string, value: Value) returns (cell: TableCell)
    ensures cell == CellFor(j, sheet, value)
  {
    var cls: Option<CellClass> := None;
    if j == 0 {
      if sheet == ModelSheet {
        cls := Some(ModelName);
      } else {
        cls := Some(CategoryName);
      }
    } else if IsNumericScore(value) {
      cls := Some(GetScoreClass(value));
    }
    cell := TableCell(cls, FormatCellValue(value));
  }

  /** The table keeps every row, OVERALL rows included, in order, flags
      exactly the OVERALL rows, and gives each row one cell per column. */
  lemma {:induction false} TableRows(rows: seq<Row>, sheet: string)
    ensures |TableBody(rows, sheet)| == |rows|
    ensures forall i :: 0 <= i < |rows| ==>
              && (TableBody(rows, sheet)[i].overall <==> IsOverallRow(rows[i]))
              && |TableBody(rows, sheet)[i].cells| == |rows[i]|
  {
  }

  /** The first cell of a row is a model name on the Model Comparison sheet
      and a category name on every other sheet. */
  lemma {:induction false} FirstColumnClass(row: Row, sheet: string)
    requires |row| > 0
    ensures CellOf(row, 0, sheet).cls == Some(ModelName) <==> sheet == ModelSheet
    ensures CellOf(row, 0, sheet).cls == Some(CategoryName) <==> sheet != ModelSheet
  {
  }

  /** A later cell is coloured exactly when it holds a score, by the band of
      that score; in a row with distinct headers its text is the formatted
      cell of its own column. */
  lemma {:induction false} ScoreCellClass(row: Row, j: nat, sheet: string)
    requires 0 < j < |row| && DistinctKeys(row)
    ensures CellOf(row, j, sheet).cls.Some? <==> IsNumericScore(row[j].1)
    ensures IsNumericScore(row[j].1) ==>
              CellOf(row, j, sheet).cls == Some(ClassOf(ParseValue(row[j].1))) &&
              ClassOf(ParseValue(row[j].1)) != ModelName && ClassOf(ParseValue(row[j].1)) != CategoryName
    ensures CellOf(row, j, sheet).text == FormatCellValue(row[j].1)
  {
    GetColumn(row, j);
  }

  // ---------------------------------------------------------------------
  // The page

  /** What the table body shows. */
  datatype Body = Blank | Message(cls: string, text: string) | Table(rows: seq<TableRow>)

  const LoadingMessage := Message("compare-loading", "Loading comparison data from Excel file...")
  const LoadErrorMessage := Message("compare-error",
    "Error loading Excel file. Please make sure \"models_comparison_report.xlsx\" is in the same directory.")

  /** `createTableHeader`: the formatted name of each column of the first
      row. Every heading is trimmed, and a header without white space at its
      ends keeps its characters, spaces aside, with the first upper cased. */
  function HeaderOf(row: Row): (h: seq<string>)
    ensures |h| == |row|
    ensures forall j :: 0 <= j < |row| ==> h[j] == FormatColumnName(row[j].0)
    ensures forall j :: 0 <= j < |h| && h[j] != [] ==> !IsWhitespace(h[j][0]) && !IsWhitespace(h[j][|h[j]| - 1])
    ensures forall j :: 0 <= j < |row| && row[j].0 != [] && !IsWhitespace(row[j].0[0]) && !IsWhitespace(row[j].0[|row[j].0| - 1]) ==>
              RemoveSpaces(h[j]) == RemoveSpaces([UpperChar(row[j].0[0])] + row[j].0[1..])
  {
    var h := seq(|row|, j requires 0 <= j < |row| => FormatColumnName(row[j].0));
    assert forall j :: 0 <= j < |row| && row[j].0 != [] && !IsWhitespace(row[j].0[0]) && !IsWhitespace(row[j].0[|row[j].0| - 1]) ==>
             RemoveSpaces(h[j]) == RemoveSpaces([UpperChar(row[j].0[0])] + row[j].0[1..]) by {
      forall j | 0 <= j < |row| && row[j].0 != [] && !IsWhitespace(row[j].0[0]) && !IsWhitespace(row[j].0[|row[j].0| - 1]) {
        FormatColumnNameRoundTrip(row[j].0);
      }
    }
    h
  }

  /** The body `displaySheet` leaves for `sheet`. */
  function SheetBody(data: Workbook, sheet: string): Body {
    if sheet !in data then Message("compare-error", "Sheet not found: " + sheet)
    else if |data[sheet]| == 0 then Message("compare-error", "No data found in sheet: " + sheet)
    else Table(TableBody(data[sheet], sheet))
  }

  /** A sheet is shown as a table exactly when it is loaded and has rows;
      the two errors name the sheet. */
  lemma {:induction false} SheetBodySpec(data: Workbook, sheet: string)
    ensures SheetBody(data, sheet).Table? <==> sheet in data && |data[sheet]| > 0
    ensures SheetBody(data, sheet).Table? ==> |SheetBody(data, sheet).rows| == |data[sheet]|
    ensures SheetBody(data, sheet).Message? ==>
              SheetBody(data, sheet).cls == "compare-error" &&
              SheetBody(data, sheet).text[|SheetBody(data, sheet).text| - |sheet|..] == sheet
  {
  }


  class ExcelComparisonDashboard {
    var data: Workbook
    var currentSheet: string
    /** The column headings `createTableHeader` last wrote. */
    var header: seq<string>
    var body: Body

    constructor()
      ensures data == map[] && currentSheet == ModelSheet && header == [] && body == Blank
    {
      data := map[];
      currentSheet := ModelSheet;
      header := [];
      body := Blank;
    }

    /** `loadExcelFile` with the fetched and decoded workbook, its sheets in
        `SheetNames` order, or None when fetching or decoding failed: the
        loading message stays until the sheet is displayed, and a failure
        replaces it by the error message. */
    method LoadExcelFile(workbook: Option<seq<(string, seq<Row>)>>)
      modifies this
      ensures data == (if workbook.None? then old(data) else Loaded(old(data), workbook.value))
      ensures body == (if workbook.None? then LoadErrorMessage else LoadingMessage)
      ensures currentSheet == old(currentSheet) && header == old(header)
    {
      body := LoadingMessage;
      if workbook.None? {
        body := LoadErrorMessage;
      } else {
        var sheets := workbook.value;
        var i := 0;
        while i < |sheets|
          invariant 0 <= i <= |sheets|
          invariant data == Loaded(old(data), sheets[..i])
          invariant body == LoadingMessage
          invariant currentSheet == old(currentSheet) && header == old(header)
        {
          assert sheets[..i + 1][..i] == sheets[..i];
          data := data[sheets[i].0 := sheets[i].1];
          i := i + 1;
        }
        assert sheets[..|sheets|] == sheets;
      }
    }

    /** `displaySheet`: an error message for a missing or empty sheet, with
        the header left as it was; otherwise the header of its first row and
        its table. */
    method DisplaySheet(sheet: string)
      modifies this
      ensures body == SheetBody(data, sheet)
      ensures header == (if sheet in data && |data[sheet]| > 0 then HeaderOf(data[sheet][0]) else old(header))
      ensures data == old(data) && currentSheet == old(currentSheet)
    {
      if sheet !in data {
        body := Message("compare-error", "Sheet not found: " + sheet);
        return;
      }
      var rows := data[sheet];
      if |rows| == 0 {
        body := Message("compare-error", "No data found in sheet: " + sheet);
        return;
      }
      header := HeaderOf(rows[0]);
      var table := CreateTableBody(rows, sheet);
      body := Table(table);
    }

    /** `switchTab`: remembers the chosen sheet, then displays it. */
    method SwitchTab(sheet: string)
      modifies this
      ensures currentSheet == sheet
      ensures body == SheetBody(data, sheet)
      ensures header == (if sheet in data && |data[sheet]| > 0 then HeaderOf(data[sheet][0]) else old(header))
      ensures data == old(data)
    {
      currentSheet := sheet;
      DisplaySheet(sheet);
    }

    /** `init`: load the workbook, then display the current sheet. */
    method Init(workbook: Option<seq<(string, seq<Row>)>>)
      modifies this
      ensures data == (if workbook.None? then old(data) else Loaded(old(data), workbook.value))
      ensures body == SheetBody(data, old(currentSheet))
      ensures header == (if old(currentSheet) in data && |data[old(currentSheet)]| > 0
                         then HeaderOf(data[old(currentSheet)][0]) else old(header))
      ensures currentSheet == old(currentSheet)
    {
      LoadExcelFile(workbook);
      DisplaySheet(currentSheet);
    }
  }

  /** A fresh dashboard whose workbook fails to load: `init` still displays
      the Model Comparison sheet, so the load error is replaced by the
      missing-sheet error, and no header is written. */
  method FailedLoadShowsMissingSheet() returns (body: Body, header: seq<string>)
    ensures body == Message("compare-error", "Sheet not found: Model Comparison")
    ensures body != LoadErrorMessage
    ensures header == []
  {
    var dashboard := new ExcelComparisonDashboard();
    dashboard.Init(None);
    body := dashboard.body;
    header := dashboard.header;
  }
}
