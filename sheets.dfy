/** Decoded workbooks as both dashboards hold them: each sheet is a sequence
    of rows, each row the column headers paired with that row's cells, in
    column order (what `sheet_to_json` with `defval: ""` produces). */
module Sheets {
  import opened JsText
  import opened JsValues

  datatype Option<T> = None | Some(value: T)

  /** The sheet comparing the models per category, which both dashboards read
      and which the comparison page shows first. */
  const ModelSheet := "Model Comparison"

  type Row = seq<(string, Value)>

  /** Sheet name to rows; a name absent from the map is a missing sheet. */
  type Workbook = map<string, seq<Row>>

  /** `Object.keys(row)`. */
  function Keys(row: Row): (ks: seq<string>)
    ensures |ks| == |row|
    ensures forall i :: 0 <= i < |row| ==> ks[i] == row[i].0
  {
    seq(|row|, i requires 0 <= i < |row| => row[i].0)
  }

  /** The first column at or after `i` headed `key`, or |row| when there is none. */
  function KeyIndex(row: Row, key: string, i: nat): (k: nat)
    requires i <= |row|
    ensures i <= k <= |row|
    ensures k < |row| ==> row[k].0 == key
    ensures forall j :: i <= j < k ==> row[j].0 != key
    decreases |row| - i
  {
    if i == |row| || row[i].0 == key then i else KeyIndex(row, key, i + 1)
  }

  /** `row[key]`: the cell under the column headed `key`, undefined when the
      row has no such column. */
  function Get(row: Row, key: string): (v: Value)
    ensures (forall j :: 0 <= j < |row| ==> row[j].0 != key) ==> v == Undefined
  {
    var k := KeyIndex(row, key, 0);
    if k < |row| then row[k].1 else Undefined
  }

  /** The headers of a row are distinct, as the keys of a JavaScript object are. */
  predicate DistinctKeys(row: Row) {
    forall i, j :: 0 <= i < j < |row| ==> row[i].0 != row[j].0
  }

  /** In a row with distinct headers, looking up a column's header finds that column's cell. */
  lemma {:induction false} GetColumn(row: Row, i: nat)
    requires DistinctKeys(row) && i < |row|
    ensures Get(row, row[i].0) == row[i].1
  {
    var k := KeyIndex(row, row[i].0, 0);
    assert k == i;
  }

  /** `Object.values(row).some(val => String(val).toUpperCase().includes('OVERALL'))`. */
  predicate IsOverallRow(row: Row) {
    exists i :: 0 <= i < |row| && MentionsOverall(row[i].1)
  }

  /** A row is an OVERALL row exactly when one of its string cells contains
      "overall" in any mix of cases. */
  lemma {:induction false} OverallRowHasOverallText(row: Row)
    ensures IsOverallRow(row) <==>
            exists i :: 0 <= i < |row| && row[i].1.Str? && Contains(ToUpper(row[i].1.s), "OVERALL")
  {
    forall i | 0 <= i < |row|
      ensures MentionsOverall(row[i].1) <==> row[i].1.Str? && Contains(ToUpper(row[i].1.s), "OVERALL")
    {
      OnlyStringsMentionOverall(row[i].1);
    }
  }

  /** The data after a `forEach` over `sheets` that assigns each sheet's rows
      to its name, starting from `data`: a later sheet of the same name
      replaces an earlier one. */
  function Loaded(data: Workbook, sheets: seq<(string, seq<Row>)>): Workbook
    decreases |sheets|
  {
    if sheets == [] then data
    else
      var last := sheets[|sheets| - 1];
      Loaded(data, sheets[..|sheets| - 1])[last.0 := last.1]
  }

  /** After loading, the names present are the old ones and the loaded ones;
      a loaded name holds the rows of its last occurrence, any other name
      keeps its old rows. */
  lemma {:induction false} LoadedContents(data: Workbook, sheets: seq<(string, seq<Row>)>, name: string)
    ensures name in Loaded(data, sheets) <==>
            name in data || exists i :: 0 <= i < |sheets| && sheets[i].0 == name
    ensures forall i :: 0 <= i < |sheets| && sheets[i].0 == name &&
                        (forall j :: i < j < |sheets| ==> sheets[j].0 != name)
                    ==> Loaded(data, sheets)[name] == sheets[i].1
    ensures (forall i :: 0 <= i < |sheets| ==> sheets[i].0 != name) && name in data
            ==> Loaded(data, sheets)[name] == data[name]
    decreases |sheets|
  {
    if sheets != [] {
      var front := sheets[..|sheets| - 1];
      LoadedContents(data, front, name);
      assert forall i :: 0 <= i < |front| ==> front[i] == sheets[i];
    }
  }
}
