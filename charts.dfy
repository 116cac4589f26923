/** The chart page: `ExcelChartsManager` turns the sheets of the comparison
    workbook into the datasets of a bar chart (overall scores), line charts
    (one per metric) and a radar chart (every metric of every model). The
    dataset extraction is pure and is modelled by functions; the manager's
    fields are a class. */
module Charts {
  import opened JsText
  import opened JsNumber
  import opened JsValues
  import opened Sheets

  const OverallSheet := "Overall Score Comparison"

  /** The axes of the radar chart, in the order of every radar vector. */
  const RadarLabels: seq<string> := ["Faithfulness", "Answer Relevance", "Context Relevance", "Correctness", "Overall Score"]

  /** One line of a metric chart: a model and its score in each category. */
  datatype Series = Series(model: string, data: seq<Float>)

  /** One polygon of the radar chart: a model and its five scores. */
  datatype RadarSeries = RadarSeries(model: Value, data: seq<Float>)

  /** The labels and datasets handed to Chart.js. */
  datatype ChartData =
    | Bar(labels: seq<string>, scores: seq<Float>)
    | Line(title: string, categories: seq<Value>, series: seq<Series>)
    | Radar(axes: seq<string>, polygons: seq<RadarSeries>)

  /** What displaying a chart ends in: a chart drawn, an error message shown
      in the chart container, a TypeError thrown out of the handler, or
      nothing at all for a chart type the switch does not know. */
  datatype Outcome = Drawn(chart: ChartData) | ShownError(message: string) | Threw | NotDrawn

  // ---------------------------------------------------------------------
  // Filters over keys and rows

  /** `s.filter(p)`. */
  function Filter<T>(s: seq<T>, p: T -> bool): (r: seq<T>)
    ensures |r| <= |s|
    decreases |s|
  {
    if s == [] then []
    else (if p(s[0]) then [s[0]] else []) + Filter(s[1..], p)
  }

  /** The filter keeps exactly the elements that pass. */
  lemma {:induction false} FilterMembers<T>(s: seq<T>, p: T -> bool)
    ensures forall x :: x in Filter(s, p) <==> x in s && p(x)
    decreases |s|
  {
    if s != [] {
      FilterMembers(s[1..], p);
      assert s == [s[0]] + s[1..];
    }
  }

  /** The filter keeps what it keeps in order: filtering a concatenation
      concatenates the filtered parts. */
  lemma {:induction false} FilterAppend<T>(a: seq<T>, b: seq<T>, p: T -> bool)
    ensures Filter(a + b, p) == Filter(a, p) + Filter(b, p)
    decreases |a|
  {
    if a != [] {
      assert (a + b)[1..] == a[1..] + b;
      FilterAppend(a[1..], b, p);
    } else {
      assert a + b == b;
    }
  }

  /** When everything passes, the filter changes nothing. */
  lemma {:induction false} FilterKeepsAll<T>(s: seq<T>, p: T -> bool)
    requires forall i :: 0 <= i < |s| ==> p(s[i])
    ensures Filter(s, p) == s
    decreases |s|
  {
    if s != [] {
      FilterKeepsAll(s[1..], p);
    }
  }

  predicate NotCategory(key: string) {
    key != "Category"
  }

  /** `keys.filter(key => key !== 'Category')`. */
  function ExceptCategory(keys: seq<string>): seq<string> {
    Filter(keys, NotCategory)
  }

  predicate NotOverall(row: Row) {
    !IsOverallRow(row)
  }

  /** The rows that are not OVERALL rows, in order. */
  function NonOverall(rows: seq<Row>): seq<Row> {
    Filter(rows, NotOverall)
  }

  // ---------------------------------------------------------------------
  // Overall bar chart (createOverallChart)

  /** The index of the first OVERALL row at or after `i`, |rows| when there is none. */
  function FirstOverall(rows: seq<Row>, i: nat): (k: nat)
    requires i <= |rows|
    ensures i <= k <= |rows|
    ensures k < |rows| ==> IsOverallRow(rows[k])
    ensures forall j :: i <= j < k ==> !IsOverallRow(rows[j])
    decreases |rows| - i
  {
    if i == |rows| || IsOverallRow(rows[i]) then i else FirstOverall(rows, i + 1)
  }

  /** `parseFloat(row[key]) || 0` for each of `keys`: one score per key,
      never NaN, 0 for a key the row lacks, and a number cell's own value
      otherwise unless that is 0. */
  function ScoresOf(row: Row, keys: seq<string>): (s: seq<Float>)
    ensures |s| == |keys|
    ensures forall i :: 0 <= i < |keys| ==> s[i] == ScoreOrZero(Get(row, keys[i]))
    ensures forall i :: 0 <= i < |s| ==> !s[i].NaN?
    ensures forall i :: 0 <= i < |keys| && keys[i] !in Keys(row) ==> s[i] == Finite(0.0)
  {
    seq(|keys|, i requires 0 <= i < |keys| => ScoreOrZero(Get(row, keys[i])))
  }

  function OverallChart(data: Workbook): (r: Outcome)
    ensures r.Drawn? || r.ShownError?
  {
    if OverallSheet !in data then ShownError("Overall Score Comparison data not found")
    else
      var rows := data[OverallSheet];
      var k := FirstOverall(rows, 0);
      if k == |rows| then ShownError("Overall scores not found")
      else
        var labels := ExceptCategory(Keys(rows[k]));
        Drawn(Bar(labels, ScoresOf(rows[k], labels)))
  }

  /** The overall bar chart: an error without the sheet or without an OVERALL
      row; otherwise, for the first OVERALL row, one bar per column other
      than Category, in column order, each `parseFloat(cell) || 0`. */
  lemma {:induction false} OverallChartSpec(data: Workbook)
    ensures OverallSheet !in data ==>
              OverallChart(data) == ShownError("Overall Score Comparison data not found")
    ensures OverallSheet in data && (forall j :: 0 <= j < |data[OverallSheet]| ==> !IsOverallRow(data[OverallSheet][j])) ==>
              OverallChart(data) == ShownError("Overall scores not found")
    ensures OverallChart(data).Drawn? <==>
              OverallSheet in data && exists k :: 0 <= k < |data[OverallSheet]| && IsOverallRow(data[OverallSheet][k])
    ensures OverallChart(data).Drawn? ==>
              exists k :: 0 <= k < |data[OverallSheet]|
                && IsOverallRow(data[OverallSheet][k])
                && (forall j :: 0 <= j < k ==> !IsOverallRow(data[OverallSheet][j]))
                && OverallChart(data).chart == Bar(ExceptCategory(Keys(data[OverallSheet][k])),
                                                   ScoresOf(data[OverallSheet][k], ExceptCategory(Keys(data[OverallSheet][k]))))
  {
    if OverallSheet in data {
      var rows := data[OverallSheet];
      var k := FirstOverall(rows, 0);
      if k < |rows| {
        assert OverallChart(data).chart == Bar(ExceptCategory(Keys(rows[k])), ScoresOf(rows[k], ExceptCategory(Keys(rows[k]))));
      }
    }
  }

  /** A sheet whose first OVERALL row is `k` is drawn as the bars of that
      row: its columns other than Category, in column order, each
      `parseFloat(cell) || 0`. */
  lemma {:induction false} OverallChartDrawsFirst(data: Workbook, k: nat)
    requires OverallSheet in data && k < |data[OverallSheet]| && IsOverallRow(data[OverallSheet][k])
    requires forall j :: 0 <= j < k ==> !IsOverallRow(data[OverallSheet][j])
    ensures OverallChart(data) == Drawn(Bar(ExceptCategory(Keys(data[OverallSheet][k])),
                                            ScoresOf(data[OverallSheet][k], ExceptCategory(Keys(data[OverallSheet][k])))))
  {
    var rows := data[OverallSheet];
    assert FirstOverall(rows, 0) == k;
  }

  /** Every bar has a score, and no score is NaN: unparsable cells count as 0. */
  lemma {:induction false} OverallBarsMatchLabels(data: Workbook)
    requires OverallChart(data).Drawn?
    ensures |OverallChart(data).chart.labels| == |OverallChart(data).chart.scores|
    ensures forall i :: 0 <= i < |OverallChart(data).chart.scores| ==> !OverallChart(data).chart.scores[i].NaN?
    ensures "Category" !in OverallChart(data).chart.labels
  {
    var rows := data[OverallSheet];
    FilterMembers(Keys(rows[FirstOverall(rows, 0)]), NotCategory);
  }

  // ---------------------------------------------------------------------
  // Metric line charts (createMetricChart)

  /** `Object.values(row)[0]`. */
  function FirstValue(row: Row): Value {
    if |row| > 0 then row[0].1 else Undefined
  }

  /** `row.Category || Object.values(row)[0]`: a cell of the row itself (or
      undefined), truthy whenever the Category cell or the first cell is, and
      the Category cell whenever that is truthy. */
  function CategoryLabel(row: Row): (v: Value)
    ensures v == Undefined || exists j :: 0 <= j < |row| && row[j].1 == v
    ensures Truthy(v) <==> Truthy(Get(row, "Category")) || Truthy(FirstValue(row))
    ensures Truthy(Get(row, "Category")) ==> v == Get(row, "Category")
    ensures !Truthy(Get(row, "Category")) ==> v == FirstValue(row)
  {
    Or(Get(row, "Category"), FirstValue(row))
  }

  function MetricChart(data: Workbook, sheet: string, title: string): (r: Outcome)
    ensures !r.NotDrawn?
  {
    if sheet !in data then ShownError(sheet + " data not found")
    else
      var rows := data[sheet];
      if |rows| == 0 then Threw
      else
        var kept := NonOverall(rows);
        var models := ExceptCategory(Keys(rows[0]));
        Drawn(Line(title,
                   seq(|kept|, i requires 0 <= i < |kept| => CategoryLabel(kept[i])),
                   seq(|models|, m requires 0 <= m < |models| =>
                     Series(models[m], seq(|kept|, i requires 0 <= i < |kept| => ScoreOrZero(Get(kept[i], models[m])))))))
  }

  /** A metric chart: an error without the sheet, a TypeError for an empty
      sheet (it reads `metricData[0]`); otherwise one label per row that is
      not an OVERALL row, in row order, and one series per column of the
      first row other than Category, in column order, whose i-th value is
      `parseFloat || 0` of the same row that gives the i-th label. */
  lemma {:induction false} MetricChartSpec(data: Workbook, sheet: string, title: string)
    ensures sheet !in data ==> MetricChart(data, sheet, title) == ShownError(sheet + " data not found")
    ensures sheet in data && |data[sheet]| == 0 ==> MetricChart(data, sheet, title) == Threw
    ensures sheet in data && |data[sheet]| > 0 ==>
      var rows := data[sheet];
      var kept := NonOverall(rows);
      var models := ExceptCategory(Keys(rows[0]));
      && MetricChart(data, sheet, title).Drawn?
      && var c := MetricChart(data, sheet, title).chart;
      && c.Line? && c.title == title
      && |c.categories| == |kept|
      && (forall i :: 0 <= i < |kept| ==> c.categories[i] == CategoryLabel(kept[i]))
      && |c.series| == |models|
      && (forall m :: 0 <= m < |models| ==>
            && c.series[m].model == models[m]
            && |c.series[m].data| == |kept|
            && (forall i :: 0 <= i < |kept| ==> c.series[m].data[i] == ScoreOrZero(Get(kept[i], models[m]))))
  {
  }

  /** The rows a metric chart plots are exactly its rows that are not OVERALL rows. */
  lemma {:induction false} MetricLeavesOutOverall(rows: seq<Row>)
    ensures forall row :: row in NonOverall(rows) ==> row in rows && !IsOverallRow(row)
    ensures forall i :: 0 <= i < |rows| && !IsOverallRow(rows[i]) ==> rows[i] in NonOverall(rows)
  {
    FilterMembers(rows, NotOverall);
    forall row | row in NonOverall(rows) ensures row in rows && !IsOverallRow(row) {
      assert row in Filter(rows, NotOverall);
      assert NotOverall(row);
    }
    forall i | 0 <= i < |rows| && !IsOverallRow(rows[i]) ensures rows[i] in NonOverall(rows) {
      assert rows[i] in rows && NotOverall(rows[i]);
    }
  }

  // ---------------------------------------------------------------------
  // Radar chart (createCategoryChart)

  /** `row.Model || row.model`. */
  function ModelOf(row: Row): Value {
    Or(Get(row, "Model"), Get(row, "model"))
  }

  /** `row.Category || row.category`. */
  function CategoryOf(row: Row): Value {
    Or(Get(row, "Category"), Get(row, "category"))
  }

  /** `modelData.map(row => row.Model || row.model)`. */
  function ModelColumn(rows: seq<Row>): (ms: seq<Value>)
    ensures |ms| == |rows|
    ensures forall i :: 0 <= i < |rows| ==> ms[i] == ModelOf(rows[i])
  {
    seq(|rows|, i requires 0 <= i < |rows| => ModelOf(rows[i]))
  }

  /** Some element of `d` is strictly equal to `v`. */
  predicate SeenIn(d: seq<Value>, v: Value) {
    exists i :: 0 <= i < |d| && StrictEquals(d[i], v)
  }

  /** `[...new Set(vs)]`: each value the first time an equal one occurs. */
  function Distinct(vs: seq<Value>): seq<Value>
    decreases |vs|
  {
    if vs == [] then []
    else
      var front := Distinct(vs[..|vs| - 1]);
      var last := vs[|vs| - 1];
      if SeenIn(front, last) then front else front + [last]
  }

  /** `vs[k]` is the first value of its kind: no earlier value is strictly equal to it. */
  predicate FirstOfKind(vs: seq<Value>, k: nat)
    requires k < |vs|
  {
    forall j :: 0 <= j < k ==> !StrictEquals(vs[j], vs[k])
  }

  /** Every value has a strictly equal one among the distinct values, and
      the distinct values have no others. */
  lemma {:induction false} DistinctSeen(vs: seq<Value>)
    ensures forall v :: SeenIn(Distinct(vs), v) <==> SeenIn(vs, v)
    decreases |vs|
  {
    if vs != [] {
      var front := vs[..|vs| - 1];
      var last := vs[|vs| - 1];
      var d := Distinct(front);
      DistinctSeen(front);
      forall v ensures SeenIn(Distinct(vs), v) <==> SeenIn(vs, v) {
        if SeenIn(vs, v) {
          var k :| 0 <= k < |vs| && StrictEquals(vs[k], v);
          if k < |front| {
            assert front[k] == vs[k];
            assert SeenIn(front, v);
            var i :| 0 <= i < |d| && StrictEquals(d[i], v);
            assert Distinct(vs)[i] == d[i];
          } else if SeenIn(d, last) {
            var i :| 0 <= i < |d| && StrictEquals(d[i], last);
            StrictEqualsIsEquivalence(d[i], last, v);
          } else {
            assert Distinct(vs)[|d|] == last;
          }
        }
        if SeenIn(Distinct(vs), v) {
          var i :| 0 <= i < |Distinct(vs)| && StrictEquals(Distinct(vs)[i], v);
          if i < |d| {
            assert Distinct(vs)[i] == d[i];
            assert SeenIn(d, v);
            var k :| 0 <= k < |front| && StrictEquals(front[k], v);
            assert vs[k] == front[k];
          } else {
            assert StrictEquals(vs[|vs| - 1], v);
          }
        }
      }
    }
  }

  /** No two distinct values are strictly equal. */
  lemma {:induction false} DistinctPairwise(vs: seq<Value>)
    ensures forall i, j :: 0 <= i < j < |Distinct(vs)| ==> !StrictEquals(Distinct(vs)[i], Distinct(vs)[j])
    decreases |vs|
  {
    if vs != [] {
      var front := vs[..|vs| - 1];
      var d := Distinct(front);
      DistinctPairwise(front);
      var last := vs[|vs| - 1];
      var all := Distinct(vs);
      if !SeenIn(d, last) {
        assert all == d + [last];
        forall i, j | 0 <= i < j < |all| ensures !StrictEquals(all[i], all[j]) {
          assert all[i] == d[i];
          if j == |d| {
            assert all[j] == last;
          } else {
            assert all[j] == d[j];
          }
        }
      }
    }
  }

  /** Each distinct value is the first occurrence of its kind among the values. */
  lemma {:induction false} DistinctFirst(vs: seq<Value>)
    ensures forall i :: 0 <= i < |Distinct(vs)| ==>
              exists k :: 0 <= k < |vs| && vs[k] == Distinct(vs)[i] && FirstOfKind(vs, k)
    decreases |vs|
  {
    if vs != [] {
      var front := vs[..|vs| - 1];
      var last := vs[|vs| - 1];
      var d := Distinct(front);
      var all := Distinct(vs);
      DistinctFirst(front);
      if SeenIn(d, last) {
        assert all == d;
      } else {
        assert all == d + [last];
        DistinctSeen(front);
        assert !SeenIn(front, last);
        forall j | 0 <= j < |front| ensures !StrictEquals(vs[j], last) {
          assert vs[j] == front[j];
        }
      }
      forall i | 0 <= i < |all|
        ensures exists k :: 0 <= k < |vs| && vs[k] == all[i] && FirstOfKind(vs, k)
      {
        if i < |d| {
          assert all[i] == d[i];
          var k :| 0 <= k < |front| && front[k] == d[i] && FirstOfKind(front, k);
          assert vs[k] == front[k];
          assert forall j :: 0 <= j < k ==> vs[j] == front[j];
          assert FirstOfKind(vs, k);
        } else {
          assert all[i] == vs[|vs| - 1];
          assert FirstOfKind(vs, |vs| - 1);
        }
      }
    } else {
      assert Distinct(vs) == [];
    }
  }

  /** The distinct values come in order of first occurrence: before any
      occurrence of a later distinct value, an earlier one has already
      occurred. */
  lemma {:induction false} DistinctOrder(vs: seq<Value>)
    ensures forall i, j, k :: 0 <= i < j < |Distinct(vs)| && 0 <= k < |vs| && StrictEquals(vs[k], Distinct(vs)[j]) ==>
              SeenIn(vs[..k], Distinct(vs)[i])
    decreases |vs|
  {
    if vs != [] {
      var front := vs[..|vs| - 1];
      var last := vs[|vs| - 1];
      var d := Distinct(front);
      var all := Distinct(vs);
      DistinctOrder(front);
      DistinctSeen(front);
      forall i, j, k | 0 <= i < j < |all| && 0 <= k < |vs| && StrictEquals(vs[k], all[j])
        ensures SeenIn(vs[..k], all[i])
      {
        assert i < |d| && all[i] == d[i];
        if k < |front| {
          assert vs[k] == front[k];
          assert vs[..k] == front[..k];
          if j < |d| {
            assert all[j] == d[j];
          } else {
            assert false;
          }
        } else {
          assert vs[..k] == front;
          StrictEqualsIsEquivalence(d[i], d[i], d[i]);
          assert SeenIn(d, d[i]);
        }
      }
    }
  }

  /** Values met later never reorder the distinct values met earlier. */
  lemma {:induction false} DistinctPrefix(vs: seq<Value>, n: nat)
    requires n <= |vs|
    ensures Distinct(vs[..n]) <= Distinct(vs)
    decreases |vs| - n
  {
    if n < |vs| {
      var front := vs[..|vs| - 1];
      assert front[..n] == vs[..n];
      DistinctPrefix(front, n);
      assert vs[..|vs|] == vs;
    } else {
      assert vs[..n] == vs;
    }
  }

  /** `modelData.filter(row => (row.Model || row.model) === model)`. */
  function ModelRows(rows: seq<Row>, model: Value): seq<Row> {
    Filter(rows, OfModel(model))
  }

  /** `row => (row.Model || row.model) === model`. */
  function OfModel(model: Value): Row -> bool {
    row => StrictEquals(ModelOf(row), model)
  }

  /** How the search for a model's OVERALL row ends. */
  datatype Search = Found(row: Row) | Missing | TypeError

  /** A row whose category is text containing OVERALL in any case: the row the search looks for. */
  predicate OverallCategory(row: Row) {
    CategoryOf(row).Str? && Contains(ToUpper(CategoryOf(row).s), "OVERALL")
  }

  /** A row whose category is text without OVERALL in it: the search passes it by. */
  predicate PlainCategory(row: Row) {
    CategoryOf(row).Str? && !OverallCategory(row)
  }

  /** `rows.find(row => (row.Category || row.category).toUpperCase().includes('OVERALL'))`
      from index `i`; `toUpperCase` of a value that is not a string throws. */
  function FindOverallFrom(rows: seq<Row>, i: nat): Search
    requires i <= |rows|
    decreases |rows| - i
  {
    if i == |rows| then Missing
    else if !CategoryOf(rows[i]).Str? then TypeError
    else if OverallCategory(rows[i]) then Found(rows[i])
    else FindOverallFrom(rows, i + 1)
  }

  function FindOverallCategory(rows: seq<Row>): Search {
    FindOverallFrom(rows, 0)
  }

  /** The search finds nothing exactly when every category from `i` on is plain text. */
  lemma {:induction false} FindMissing(rows: seq<Row>, i: nat)
    requires i <= |rows|
    ensures FindOverallFrom(rows, i).Missing? <==> forall j :: i <= j < |rows| ==> PlainCategory(rows[j])
    decreases |rows| - i
  {
    if i < |rows| && PlainCategory(rows[i]) {
      FindMissing(rows, i + 1);
    }
  }

  /** A found row is the first from `i` on whose category is not plain text, and it mentions OVERALL. */
  lemma {:induction false} FindFound(rows: seq<Row>, i: nat)
    requires i <= |rows|
    ensures FindOverallFrom(rows, i).Found? ==>
              exists k :: (i <= k < |rows| && FindOverallFrom(rows, i).row == rows[k] && OverallCategory(rows[k])
                           && forall j :: i <= j < k ==> PlainCategory(rows[j]))
    decreases |rows| - i
  {
    if i < |rows| && PlainCategory(rows[i]) {
      FindFound(rows, i + 1);
    }
  }

  /** A TypeError comes from the first row from `i` on whose category is not plain text, being no string. */
  lemma {:induction false} FindThrows(rows: seq<Row>, i: nat)
    requires i <= |rows|
    ensures FindOverallFrom(rows, i).TypeError? ==>
              exists k :: (i <= k < |rows| && !CategoryOf(rows[k]).Str?
                           && forall j :: i <= j < k ==> PlainCategory(rows[j]))
    decreases |rows| - i
  {
    if i < |rows| && PlainCategory(rows[i]) {
      FindThrows(rows, i + 1);
    }
  }

  /** The search ends at the first row whose category is not plain text:
      found when it mentions OVERALL, a TypeError when it is not a string;
      it finds nothing only when every category is plain text. */
  lemma {:induction false} FindOverallCategorySpec(rows: seq<Row>)
    ensures var s := FindOverallCategory(rows);
      && (s.Missing? <==> forall j :: 0 <= j < |rows| ==> PlainCategory(rows[j]))
      && (s.Found? ==> exists k :: (0 <= k < |rows| && s.row == rows[k] && OverallCategory(rows[k])
                                   && forall j :: 0 <= j < k ==> PlainCategory(rows[j])))
      && (s.TypeError? ==> exists k :: (0 <= k < |rows| && !CategoryOf(rows[k]).Str?
                                       && forall j :: 0 <= j < k ==> PlainCategory(rows[j])))
  {
    FindMissing(rows, 0);
    FindFound(rows, 0);
    FindThrows(rows, 0);
  }

  /** The camelCase and Title Case spellings of each radar axis, in axis order. */
  const RadarKeys: seq<(string, string)> := [
    ("faithfulness", "Faithfulness"), ("answerRelevance", "Answer Relevance"),
    ("contextRelevance", "Context Relevance"), ("correctness", "Correctness"),
    ("overallScore", "Overall Score")]

  /** The five radar scores of an OVERALL row: `parseFloat(row.camel || row['Title']) || 0`. */
  function RadarVector(row: Row): (v: seq<Float>)
    ensures |v| == |RadarLabels| == |RadarKeys|
    ensures forall i :: 0 <= i < |v| ==> !v[i].NaN?
  {
    seq(5, i requires 0 <= i < 5 => ScoreOrZero(Or(Get(row, RadarKeys[i].0), Get(row, RadarKeys[i].1))))
  }

  /** Each radar score is read from the camelCase cell when that is truthy,
      and from the Title Case cell otherwise: when the row has no camelCase
      column, or its camelCase cell is empty or 0. */
  lemma {:induction false} RadarVectorSpec(row: Row, i: nat)
    requires i < 5
    ensures Truthy(Get(row, RadarKeys[i].0)) ==> RadarVector(row)[i] == ScoreOrZero(Get(row, RadarKeys[i].0))
    ensures !Truthy(Get(row, RadarKeys[i].0)) ==> RadarVector(row)[i] == ScoreOrZero(Get(row, RadarKeys[i].1))
  {
  }

  /** An empty camelCase cell falls through to the Title Case cell. */
  lemma {:induction false} RadarFallsThrough()
    ensures RadarVector([("faithfulness", Str("")), ("Faithfulness", Num(9, 0))])[0] == Finite(9.0)
  {
    var row := [("faithfulness", Str("")), ("Faithfulness", Num(9, 0))];
    assert Get(row, "faithfulness") == Str("");
    assert Get(row, "Faithfulness") == Num(9, 0);
    ScoreOfNum(9, 0);
  }

  /** Each model paired with the outcome of searching its rows. */
  function Searches(rows: seq<Row>, models: seq<Value>): (ss: seq<(Value, Search)>)
    ensures |ss| == |models|
    ensures forall i :: 0 <= i < |models| ==> ss[i].0 == models[i]
    ensures forall i :: 0 <= i < |models| ==> ss[i].1 == FindOverallCategory(ModelRows(rows, models[i]))
  {
    seq(|models|, i requires 0 <= i < |models| => (models[i], FindOverallCategory(ModelRows(rows, models[i]))))
  }

  /** A model's search only finds one of that model's own rows of the
      sheet, and that row's category mentions OVERALL. */
  lemma {:induction false} SearchesFindOwnRows(rows: seq<Row>, models: seq<Value>)
    ensures forall i :: 0 <= i < |models| && Searches(rows, models)[i].1.Found? ==>
      && Searches(rows, models)[i].1.row in rows
      && StrictEquals(ModelOf(Searches(rows, models)[i].1.row), models[i])
      && OverallCategory(Searches(rows, models)[i].1.row)
  {
    var ss := Searches(rows, models);
    forall i | 0 <= i < |models| && ss[i].1.Found?
      ensures ss[i].1.row in rows && StrictEquals(ModelOf(ss[i].1.row), models[i]) && OverallCategory(ss[i].1.row)
    {
      var mr := ModelRows(rows, models[i]);
      FindOverallCategorySpec(mr);
      FilterMembers(rows, OfModel(models[i]));
      var k :| 0 <= k < |mr| && ss[i].1.row == mr[k] && OverallCategory(mr[k]);
      assert mr[k] in mr;
    }
  }

  /** The datasets built from the searches in order, models without an
      OVERALL row left out; None when some search throws. */
  function Polygons(ss: seq<(Value, Search)>, vector: Row -> seq<Float>): Option<seq<RadarSeries>>
    decreases |ss|
  {
    if ss == [] then Some([])
    else
      var rest := Polygons(ss[1..], vector);
      match ss[0].1
      case TypeError => None
      case Missing => rest
      case Found(row) => if rest.None? then None else Some([RadarSeries(ss[0].0, vector(row))] + rest.value)
  }

  /** Datasets for consecutive runs of models are produced one after the other. */
  lemma {:induction false} PolygonsAppend(a: seq<(Value, Search)>, b: seq<(Value, Search)>, vector: Row -> seq<Float>)
    ensures Polygons(a + b, vector) ==
            if Polygons(a, vector).Some? && Polygons(b, vector).Some? then Some(Polygons(a, vector).value + Polygons(b, vector).value) else None
    decreases |a|
  {
    if a != [] {
      assert (a + b)[1..] == a[1..] + b;
      PolygonsAppend(a[1..], b, vector);
      var rest := Polygons(a[1..], vector);
      if a[0].1.Found? && rest.Some? && Polygons(b, vector).Some? {
        var p := RadarSeries(a[0].0, vector(a[0].1.row));
        assert [p] + (rest.value + Polygons(b, vector).value) == ([p] + rest.value) + Polygons(b, vector).value;
      }
    } else {
      assert a + b == b;
      if Polygons(b, vector).Some? {
        assert [] + Polygons(b, vector).value == Polygons(b, vector).value;
      }
    }
  }

  /** The datasets throw exactly when some search throws. */
  lemma {:induction false} PolygonsThrow(ss: seq<(Value, Search)>, vector: Row -> seq<Float>)
    ensures Polygons(ss, vector).None? <==> exists i :: 0 <= i < |ss| && ss[i].1.TypeError?
    decreases |ss|
  {
    if ss != [] {
      PolygonsThrow(ss[1..], vector);
      assert forall i :: 0 <= i < |ss| - 1 ==> ss[1..][i] == ss[i + 1];
      if ss[0].1.TypeError? {
        assert Polygons(ss, vector).None?;
      }
    }
  }

  /** The search of this model found its OVERALL row. */
  predicate IsFound(p: (Value, Search)) {
    p.1.Found?
  }

  /** The dataset of a model whose search found its OVERALL row. */
  function Dataset(p: (Value, Search), vector: Row -> seq<Float>): RadarSeries {
    RadarSeries(p.0, if p.1.Found? then vector(p.1.row) else [])
  }

  function DatasetsOf(fs: seq<(Value, Search)>, vector: Row -> seq<Float>): (ds: seq<RadarSeries>)
    ensures |ds| == |fs|
    ensures forall i :: 0 <= i < |fs| ==> ds[i] == Dataset(fs[i], vector)
  {
    seq(|fs|, i requires 0 <= i < |fs| => Dataset(fs[i], vector))
  }

  lemma {:induction false} DatasetsOfCons(x: (Value, Search), f: seq<(Value, Search)>, vector: Row -> seq<Float>)
    ensures DatasetsOf([x] + f, vector) == [Dataset(x, vector)] + DatasetsOf(f, vector)
  {
    var l := DatasetsOf([x] + f, vector);
    var r := [Dataset(x, vector)] + DatasetsOf(f, vector);
    assert |l| == |r|;
    forall i | 0 <= i < |l| ensures l[i] == r[i] {
      if i > 0 {
        assert ([x] + f)[i] == f[i - 1];
      }
    }
  }

  /** When no search throws, the datasets are those of the models whose
      search found an OVERALL row, in the order of the models. */
  lemma {:induction false} PolygonsOfFound(ss: seq<(Value, Search)>, vector: Row -> seq<Float>)
    ensures Polygons(ss, vector).Some? ==> Polygons(ss, vector).value == DatasetsOf(Filter(ss, IsFound), vector)
    decreases |ss|
  {
    if ss != [] && Polygons(ss, vector).Some? {
      var tail := ss[1..];
      var rest := Polygons(tail, vector);
      PolygonsOfFound(tail, vector);
      var f := Filter(tail, IsFound);
      if ss[0].1.Found? {
        assert Polygons(ss, vector) == Some([Dataset(ss[0], vector)] + rest.value);
        assert Filter(ss, IsFound) == [ss[0]] + f;
        DatasetsOfCons(ss[0], f, vector);
      } else {
        assert Polygons(ss, vector) == rest;
        assert Filter(ss, IsFound) == f;
      }
    }
  }

  /** Each distinct model, in order of first occurrence, with the outcome of
      searching its rows for the OVERALL row. */
  function RadarSearches(rows: seq<Row>): seq<(Value, Search)> {
    Searches(rows, Distinct(ModelColumn(rows)))
  }

  /** The radar searches cover exactly the sheet's models: each row's
      `Model || model` value is strictly equal to one searched model, and
      every searched model is some row's. */
  lemma {:induction false} RadarModels(rows: seq<Row>)
    ensures forall v :: SeenIn(Distinct(ModelColumn(rows)), v) <==>
              exists i :: 0 <= i < |rows| && StrictEquals(ModelOf(rows[i]), v)
  {
    var mc := ModelColumn(rows);
    DistinctSeen(mc);
    forall v ensures SeenIn(mc, v) <==> exists i :: 0 <= i < |rows| && StrictEquals(ModelOf(rows[i]), v) {
      if SeenIn(mc, v) {
        var i :| 0 <= i < |mc| && StrictEquals(mc[i], v);
        assert StrictEquals(ModelOf(rows[i]), v);
      }
      if exists i :: 0 <= i < |rows| && StrictEquals(ModelOf(rows[i]), v) {
        var i :| 0 <= i < |rows| && StrictEquals(ModelOf(rows[i]), v);
        assert StrictEquals(mc[i], v);
      }
    }
  }

  function RadarChart(data: Workbook): (r: Outcome)
    ensures r.Drawn? ==> r.chart.Radar? && r.chart.axes == RadarLabels
  {
    if ModelSheet !in data then ShownError("Model Comparison data not found")
    else
      match Polygons(RadarSearches(data[ModelSheet]), RadarVector)
      case None => Threw
      case Some(ds) => Drawn(Radar(RadarLabels, ds))
  }

  /** The radar chart: an error without the Model Comparison sheet; a
      TypeError when the search of some model throws; otherwise one polygon
      per model whose search found its OVERALL row, in order of the models'
      first occurrence, holding the radar vector of that row. */
  lemma {:induction false} RadarChartSpec(data: Workbook)
    ensures ModelSheet !in data ==> RadarChart(data) == ShownError("Model Comparison data not found")
    ensures ModelSheet in data ==>
      var ss := RadarSearches(data[ModelSheet]);
      && (RadarChart(data) == Threw <==> exists i :: 0 <= i < |ss| && ss[i].1.TypeError?)
      && (RadarChart(data) != Threw ==>
            RadarChart(data) == Drawn(Radar(RadarLabels, DatasetsOf(Filter(ss, IsFound), RadarVector))))
  {
    if ModelSheet in data {
      var ss := RadarSearches(data[ModelSheet]);
      PolygonsThrow(ss, RadarVector);
      PolygonsOfFound(ss, RadarVector);
    }
  }

  /** Each polygon belongs to a model whose search found its OVERALL row and
      holds the five radar scores of that row. */
  lemma {:induction false} RadarPolygonsFound(ss: seq<(Value, Search)>)
    ensures forall k :: 0 <= k < |Filter(ss, IsFound)| ==>
      && Filter(ss, IsFound)[k] in ss
      && Filter(ss, IsFound)[k].1.Found?
      && DatasetsOf(Filter(ss, IsFound), RadarVector)[k].model == Filter(ss, IsFound)[k].0
      && |DatasetsOf(Filter(ss, IsFound), RadarVector)[k].data| == 5
  {
    var fs := Filter(ss, IsFound);
    FilterMembers(ss, IsFound);
    forall k | 0 <= k < |fs| ensures fs[k] in ss && fs[k].1.Found? {
      assert fs[k] in fs;
      assert IsFound(fs[k]);
    }
  }

  // ---------------------------------------------------------------------
  // displayChart

  /** The switch of `displayChart`: which view each chart type draws. */
  function ChartFor(data: Workbook, chartType: string): Outcome {
    match chartType
    case "overall" => OverallChart(data)
    case "faithfulness" => MetricChart(data, "Faithfulness Comparison", "Faithfulness Scores")
    case "answer-relevance" => MetricChart(data, "Answer Relevance Comparison", "Answer Relevance Scores")
    case "context-relevance" => MetricChart(data, "Context Relevance Comparison", "Context Relevance Scores")
    case "correctness" => MetricChart(data, "correctness Comparison", "Correctness Scores")
    case "category-comparison" => RadarChart(data)
    case _ => NotDrawn
  }

  const ChartTypes: set<string> := {"overall", "faithfulness", "answer-relevance", "context-relevance", "correctness", "category-comparison"}

  /** Only the six chart types of the switch do anything. */
  lemma {:induction false} ChartForKnownTypes(data: Workbook, chartType: string)
    ensures ChartFor(data, chartType).NotDrawn? <==> chartType !in ChartTypes
  {
  }

  /** Before any workbook is loaded every chart type of the switch shows a not-found message. */
  lemma {:induction false} ChartForEmpty(chartType: string)
    ensures chartType in ChartTypes ==> ChartFor(map[], chartType).ShownError?
  {
  }

  /** The correctness chart looks its sheet up under a lower-case name. */
  lemma {:induction false} CorrectnessSheetName()
    ensures ChartFor(map[], "correctness") == ShownError("correctness Comparison data not found")
  {
  }

  // ---------------------------------------------------------------------
  // The manager

  class ExcelChartsManager {
    var data: Workbook
    var currentChart: string
    /** The last chart constructed (`this.chart`). */
    var chart: Option<ChartData>
    /** Whether that chart is still on the canvas, not yet destroyed. */
    var live: bool

    constructor()
      ensures data == map[] && currentChart == "overall" && chart == None && !live
    {
      data := map[];
      currentChart := "overall";
      chart := None;
      live := false;
    }

    /** `loadExcelFile` with the fetched and decoded workbook, its sheets in
        `SheetNames` order, or None when fetching or decoding failed. */
    method LoadExcelFile(workbook: Option<seq<(string, seq<Row>)>>)
      modifies this
      ensures data == (if workbook.None? then old(data) else Loaded(old(data), workbook.value))
      ensures currentChart == old(currentChart) && chart == old(chart) && live == old(live)
    {
      if workbook.Some? {
        var sheets := workbook.value;
        var i := 0;
        while i < |sheets|
          invariant 0 <= i <= |sheets|
          invariant data == Loaded(old(data), sheets[..i])
          invariant currentChart == old(currentChart) && chart == old(chart) && live == old(live)
        {
          assert sheets[..i + 1][..i] == sheets[..i];
          data := data[sheets[i].0 := sheets[i].1];
          i := i + 1;
        }
        assert sheets[..|sheets|] == sheets;
      }
    }

    /** `displayChart`: destroys the chart on the canvas, then draws the
        chosen view; on an error, a throw or an unknown type the field keeps
        the destroyed chart. */
    method DisplayChart(chartType: string) returns (outcome: Outcome)
      modifies this
      ensures outcome == ChartFor(data, chartType)
      ensures chart == (if outcome.Drawn? then Some(outcome.chart) else old(chart))
      ensures live == outcome.Drawn?
      ensures data == old(data) && currentChart == old(currentChart)
    {
      // `this.chart.destroy()` when there is a chart; none is live otherwise
      live := false;
      outcome := ChartFor(data, chartType);
      if outcome.Drawn? {
        chart := Some(outcome.chart);
        live := true;
      }
    }

    /** `switchChart`: remembers the chosen type, then displays it. */
    method SwitchChart(chartType: string) returns (outcome: Outcome)
      modifies this
      ensures currentChart == chartType
      ensures outcome == ChartFor(data, chartType)
      ensures chart == (if outcome.Drawn? then Some(outcome.chart) else old(chart))
      ensures live == outcome.Drawn?
      ensures data == old(data)
    {
      currentChart := chartType;
      outcome := DisplayChart(chartType);
    }

    /** `init`: load the workbook, then display the current chart. */
    method Init(workbook: Option<seq<(string, seq<Row>)>>) returns (outcome: Outcome)
      modifies this
      ensures data == (if workbook.None? then old(data) else Loaded(old(data), workbook.value))
      ensures outcome == ChartFor(data, old(currentChart))
      ensures chart == (if outcome.Drawn? then Some(outcome.chart) else old(chart))
      ensures live == outcome.Drawn?
      ensures currentChart == old(currentChart)
    {
      LoadExcelFile(workbook);
      outcome := DisplayChart(currentChart);
    }
  }
}
