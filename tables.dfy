/** The column dictionary both text-table parsers end with:
    `{headings[i]: np.array(rows)[:, i] for i in range(len(headings))}`.
    Cells are kept as the tokens of the file; the `float` conversion is not
    modelled. */
module Tables {
  import opened Results
  import opened Seqs

  /** Why a table cannot be built. */
  datatype ParseError =
    | EmptySeparator          // `str.split("")`
    | NoHeadingLine(index: int) // the heading line index is out of range
    | EmptyBlock              // the log has no line between its markers
    | RaggedRows              // `np.array` of rows of different lengths
    | MissingColumn(column: nat) // `[:, i]` past the last column

  /** Every row has as many cells as the first. */
  predicate Rectangular(rows: seq<seq<string>>)
  {
    forall i :: 0 <= i < |rows| ==> |rows[i]| == |rows[0]|
  }

  /** The number of columns of `np.array(rows)`: none when there is no row. */
  function Width(rows: seq<seq<string>>): nat
  {
    if rows == [] then 0 else |rows[0]|
  }

  /** `np.array(rows)[:, j]`. */
  function Column(rows: seq<seq<string>>, j: nat): (col: seq<string>)
    requires Rectangular(rows) && j < Width(rows)
    ensures |col| == |rows|
  {
    seq(|rows|, i requires 0 <= i < |rows| => rows[i][j])
  }

  /** The dictionary from heading to column; a repeated heading keeps its
      last column. */
  function ColumnDict(headings: seq<string>, rows: seq<seq<string>>): (r: Result<map<string, seq<string>>, ParseError>)
    ensures r.Ok? <==> Rectangular(rows) && |headings| <= Width(rows)
    ensures r.Ok? ==> r.value.Keys == set h | h in headings
  {
    if !Rectangular(rows) then Err(RaggedRows)
    else if |headings| > Width(rows) then Err(MissingColumn(Width(rows)))
    else Ok(ToMap(headings, seq(|headings|, j requires 0 <= j < |headings| => Column(rows, j))))
  }

  /** Rows that all have one cell per heading always make a dictionary. */
  lemma ColumnDictFull(headings: seq<string>, rows: seq<seq<string>>)
    requires forall i :: 0 <= i < |rows| ==> |rows[i]| == |headings|
    ensures ColumnDict(headings, rows).Ok? <==> rows != [] || headings == []
  {
  }

  /** Every heading maps to a full column whose `i`-th entry is cell `j` of
      row `i`, for the last position `j` of that heading. */
  lemma ColumnDictCells(headings: seq<string>, rows: seq<seq<string>>, h: string)
    requires ColumnDict(headings, rows).Ok? && h in headings
    ensures var col := ColumnDict(headings, rows).value[h];
      && |col| == |rows|
      && forall i :: 0 <= i < |rows| ==> col[i] == rows[i][LastIndexOf(headings, h)]
  {
  }

  /** With distinct headings, heading `j` maps to column `j`. */
  lemma ColumnDictDistinct(headings: seq<string>, rows: seq<seq<string>>, j: nat)
    requires ColumnDict(headings, rows).Ok? && Distinct(headings) && j < |headings|
    ensures var col := ColumnDict(headings, rows).value[headings[j]];
      && |col| == |rows|
      && forall i :: 0 <= i < |rows| ==> col[i] == rows[i][j]
  {
    ColumnDictCells(headings, rows, headings[j]);
    var k := LastIndexOf(headings, headings[j]);
    assert k == j;
  }
}
