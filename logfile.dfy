/** `LogFile.parse_thermo_table`: the thermodynamic table of a LAMMPS log.
    The table is the block of lines after the last line starting
    `Per MPI rank` and before the last line starting `Loop time`; its first
    line holds the headings and every other line one row. The log is given
    as its lines; the `float` conversion of the cells is not modelled. */
module LogFiles {
  import opened Results
  import opened Seqs
  import opened Text
  import opened Tables

  /** The line LAMMPS prints just before the thermo table. */
  const StartMarker: string := "Per MPI rank"
  /** The line LAMMPS prints just after the thermo table. */
  const EndMarker: string := "Loop time"

  /** `line.strip().startswith(marker)` as a test on lines. */
  function MarkerTest(marker: string): string -> bool
  {
    line => LineStartsWith(line, marker)
  }

  /** Which lines pass the marker test. */
  function MarkerFlags(lines: seq<string>, isMarker: string -> bool): (f: seq<bool>)
    ensures |f| == |lines|
  {
    seq(|lines|, i requires 0 <= i < |lines| => isMarker(lines[i]))
  }

  /** The index of the last flagged position, or -1 when there is none. */
  function LastTrue(f: seq<bool>): (r: int)
    ensures -1 <= r < |f|
  {
    if f == [] then -1
    else if f[|f| - 1] then |f| - 1
    else LastTrue(f[..|f| - 1])
  }

  /** -1 exactly when nothing is flagged; otherwise a flagged position with
      nothing flagged after it. */
  lemma {:induction false} LastTrueSpec(f: seq<bool>)
    ensures LastTrue(f) == -1 <==> forall i :: 0 <= i < |f| ==> !f[i]
    ensures LastTrue(f) >= 0 ==> f[LastTrue(f)] && forall i :: LastTrue(f) < i < |f| ==> !f[i]
  {
    if f != [] && !f[|f| - 1] {
      var n := |f| - 1;
      LastTrueSpec(f[..n]);
      assert forall i :: 0 <= i < n ==> f[..n][i] == f[i];
    }
  }

  /** A flagged position with nothing flagged after it is the last one. */
  lemma LastTrueAt(f: seq<bool>, k: nat)
    requires k < |f| && f[k]
    requires forall i :: k < i < |f| ==> !f[i]
    ensures LastTrue(f) == k
  {
    LastTrueSpec(f);
  }

  /** One line of the scan: a flagged line becomes the last flagged one. */
  lemma LastTrueStep(f: seq<bool>, i: nat)
    requires i < |f|
    ensures LastTrue(f[..i + 1]) == if f[i] then i else LastTrue(f[..i])
  {
    assert f[..i + 1][..i] == f[..i];
  }

  /** The index of the last marker line, or -1. */
  function LastMarker(lines: seq<string>, isMarker: string -> bool): int
  {
    LastTrue(MarkerFlags(lines, isMarker))
  }

  /** `i + 1` for a found line `i`; -1 stands for none. */
  function After(k: int): int
  {
    if k == -1 then -1 else k + 1
  }

  /** `i - 1` for a found line `i`; -1 stands for none. */
  function Before(k: int): int
  {
    if k == -1 then -1 else k - 1
  }

  /** `start_line`: one past the last start marker, or -1 without one. */
  function StartLine(lines: seq<string>, isStart: string -> bool): int
  {
    After(LastMarker(lines, isStart))
  }

  /** `end_line`: one before the last end marker, or -1 without one. */
  function EndLine(lines: seq<string>, isEnd: string -> bool): int
  {
    Before(LastMarker(lines, isEnd))
  }

  /** `lines[start_line : end_line + 1]`, with Python's slice rules. */
  function Block(lines: seq<string>, isStart: string -> bool, isEnd: string -> bool): seq<string>
  {
    PySlice(lines, StartLine(lines, isStart), EndLine(lines, isEnd) + 1)
  }

  /** What follows the slice: headings from the first line, one row per
      further line, each split by `split`, and the column dictionary. An
      empty block has no first line. */
  function BlockTable(block: seq<string>, split: string -> seq<string>): Result<map<string, seq<string>>, ParseError>
  {
    if block == [] then Err(EmptyBlock)
    else ColumnDict(split(block[0]), Map(split, block[1..]))
  }

  /** The dictionary `parse_thermo_table` returns: the headings of the first
      block line, each mapped to its column of the remaining lines, all split
      on whitespace. */
  function ThermoTable(lines: seq<string>): Result<map<string, seq<string>>, ParseError>
  {
    BlockTable(Block(lines, MarkerTest(StartMarker), MarkerTest(EndMarker)), Fields)
  }

  /** `parse_thermo_table` on the lines of the log. */
  method ParseThermoTable(lines: seq<string>) returns (r: Result<map<string, seq<string>>, ParseError>)
    ensures r == ThermoTable(lines)
  {
    r := ParseBlock(lines, StartMarker, EndMarker);
  }

  /** The body of `parse_thermo_table` for given markers: the marker scan,
      the slice, the headings and the rows. */
  method ParseBlock(lines: seq<string>, startMarker: string, endMarker: string)
    returns (r: Result<map<string, seq<string>>, ParseError>)
    ensures r == BlockTable(Block(lines, MarkerTest(startMarker), MarkerTest(endMarker)), Fields)
  {
    var startLine, endLine := ScanMarkers(lines, startMarker, endMarker);
    var data := PySlice(lines, startLine, endLine + 1);
    assert data == Block(lines, MarkerTest(startMarker), MarkerTest(endMarker));
    r := BlockTable(data, Fields);
  }

  /** The loop of `parse_thermo_table`: every start marker moves the start
      past itself and every end marker moves the end before itself, so the
      last of each wins. */
  method ScanMarkers(lines: seq<string>, startMarker: string, endMarker: string)
    returns (startLine: int, endLine: int)
    ensures startLine == StartLine(lines, MarkerTest(startMarker))
    ensures endLine == EndLine(lines, MarkerTest(endMarker))
  {
    startLine, endLine := -1, -1;
    ghost var starts := MarkerFlags(lines, MarkerTest(startMarker));
    ghost var ends := MarkerFlags(lines, MarkerTest(endMarker));
    var i := 0;
    while i < |lines|
      invariant 0 <= i <= |lines|
      invariant startLine == After(LastTrue(starts[..i]))
      invariant endLine == Before(LastTrue(ends[..i]))
    {
      LastTrueStep(starts, i);
      LastTrueStep(ends, i);
      var isStart := LineStartsWith(lines[i], startMarker);
      var isEnd := LineStartsWith(lines[i], endMarker);
      assert isStart == starts[i] && isEnd == ends[i];
      if isStart {
        startLine := i + 1;
      }
      if isEnd {
        endLine := i - 1;
      }
      i := i + 1;
    }
    assert starts[..i] == starts && ends[..i] == ends;
  }

  /** The slice from one past line `p` to one before line `q`, either of
      which may be missing (-1), holds the lines strictly between them. */
  lemma SliceBetween(lines: seq<string>, p: int, q: int)
    requires -1 <= p < |lines| && -1 <= q < |lines|
    ensures PySlice(lines, After(p), Before(q) + 1) == if 0 <= p < q then lines[p + 1..q] else []
  {
    var n := |lines|;
    var i := PyBound(After(p), n);
    var j := PyBound(Before(q) + 1, n);
    assert j == if q == -1 then 0 else q;
    assert i == if p >= 0 then p + 1 else if n == 0 then 0 else n - 1;
  }

  /** The block is exactly the lines strictly between the last start marker
      and the last end marker, and empty when the end marker is missing or
      does not come after the start marker. */
  lemma BlockBetween(lines: seq<string>, isStart: string -> bool, isEnd: string -> bool)
    ensures var p := LastMarker(lines, isStart);
      var q := LastMarker(lines, isEnd);
      Block(lines, isStart, isEnd) == if 0 <= p < q then lines[p + 1..q] else []
  {
    SliceBetween(lines, LastMarker(lines, isStart), LastMarker(lines, isEnd));
  }

  /** Hence the table is missing exactly when no line separates the two
      markers. */
  lemma EmptyBlockCases(lines: seq<string>, isStart: string -> bool, isEnd: string -> bool, split: string -> seq<string>)
    ensures var p := LastMarker(lines, isStart);
      var q := LastMarker(lines, isEnd);
      BlockTable(Block(lines, isStart, isEnd), split) == Err(EmptyBlock) <==> !(0 <= p && p + 1 < q)
  {
    BlockBetween(lines, isStart, isEnd);
  }

  /** Every heading of the first block line names a full column, whose
      entry for block line `j` is a cell of that line: the rows keep the
      order of the block. */
  lemma BlockTableCells(block: seq<string>, split: string -> seq<string>, h: string)
    requires BlockTable(block, split).Ok?
    ensures block != []
    ensures h in split(block[0]) ==>
      var col := BlockTable(block, split).value[h];
      var k := LastIndexOf(split(block[0]), h);
      && |col| == |block| - 1
      && forall j :: 1 <= j < |block| ==> k < |split(block[j])| && col[j - 1] == split(block[j])[k]
  {
    if h in split(block[0]) {
      var rows := Map(split, block[1..]);
      var k := LastIndexOf(split(block[0]), h);
      var col := BlockTable(block, split).value[h];
      ColumnDictCells(split(block[0]), rows, h);
      assert Rectangular(rows) && k < |split(block[0])| <= Width(rows);
      forall j | 1 <= j < |block|
        ensures k < |split(block[j])| && col[j - 1] == split(block[j])[k]
      {
        MapAt(split, block[1..], j - 1);
        assert block[1..][j - 1] == block[j];
        assert |rows[j - 1]| == |rows[0]|;
      }
    }
  }

  /** A block whose first line splits into the headings and whose other lines
      split into the rows gives their column dictionary. */
  lemma BlockTableOf(block: seq<string>, split: string -> seq<string>, headings: seq<string>, rows: seq<seq<string>>)
    requires |block| == |rows| + 1 && split(block[0]) == headings
    requires forall i :: 0 <= i < |rows| ==> split(block[i + 1]) == rows[i]
    ensures BlockTable(block, split) == ColumnDict(headings, rows)
  {
    var cells := Map(split, block[1..]);
    forall i | 0 <= i < |rows|
      ensures cells[i] == rows[i]
    {
      MapAt(split, block[1..], i);
    }
    assert cells == rows;
  }

  /** A line after which no line is a marker is the last marker. */
  lemma MarkerLast(lines: seq<string>, k: nat, isMarker: string -> bool)
    requires k < |lines| && isMarker(lines[k])
    requires forall i :: k < i < |lines| ==> !isMarker(lines[i])
    ensures LastMarker(lines, isMarker) == k
  {
    var f := MarkerFlags(lines, isMarker);
    assert forall i :: k < i < |f| ==> !f[i];
    LastTrueAt(f, k);
  }

  /** No line is a marker. */
  predicate NoMarker(lines: seq<string>, isMarker: string -> bool)
  {
    forall i :: 0 <= i < |lines| ==> !isMarker(lines[i])
  }

  lemma NoMarkerAppend(a: seq<string>, b: seq<string>, isMarker: string -> bool)
    requires NoMarker(a, isMarker) && NoMarker(b, isMarker)
    ensures NoMarker(a + b, isMarker)
  {
    forall i | 0 <= i < |a + b|
      ensures !isMarker((a + b)[i])
    {
      if i >= |a| {
        assert (a + b)[i] == b[i - |a|];
      }
    }
  }

  /** A marker line followed by lines that are not is the last one. */
  lemma MarkerLastAt(pre: seq<string>, line: string, post: seq<string>, isMarker: string -> bool)
    requires isMarker(line) && NoMarker(post, isMarker)
    ensures LastMarker(pre + [line] + post, isMarker) == |pre|
  {
    var lines := pre + [line] + post;
    forall i | |pre| < i < |lines|
      ensures !isMarker(lines[i])
    {
      assert lines[i] == post[i - |pre| - 1];
    }
    MarkerLast(lines, |pre|, isMarker);
  }

  /** A log laid out as: any lines, a start marker line, the table lines, an
      end marker line, then lines without markers. */
  predicate Framed(startLine: string, table: seq<string>, endLine: string, post: seq<string>,
                   isStart: string -> bool, isEnd: string -> bool)
  {
    && isStart(startLine) && isEnd(endLine) && !isStart(endLine)
    && NoMarker(table, isStart) && NoMarker(table, isEnd)
    && NoMarker(post, isStart) && NoMarker(post, isEnd)
  }

  /** In a framed log the start marker line is the last one. */
  lemma FramedStart(pre: seq<string>, startLine: string, table: seq<string>, endLine: string, post: seq<string>,
                    isStart: string -> bool, isEnd: string -> bool)
    requires Framed(startLine, table, endLine, post, isStart, isEnd)
    ensures LastMarker(pre + [startLine] + table + [endLine] + post, isStart) == |pre|
  {
    var rest := table + [endLine] + post;
    assert NoMarker([endLine], isStart);
    NoMarkerAppend(table, [endLine], isStart);
    NoMarkerAppend(table + [endLine], post, isStart);
    assert pre + [startLine] + table + [endLine] + post == pre + [startLine] + rest;
    MarkerLastAt(pre, startLine, rest, isStart);
  }

  /** In a framed log the end marker line is the last one. */
  lemma FramedEnd(pre: seq<string>, startLine: string, table: seq<string>, endLine: string, post: seq<string>,
                  isStart: string -> bool, isEnd: string -> bool)
    requires Framed(startLine, table, endLine, post, isStart, isEnd)
    ensures LastMarker(pre + [startLine] + table + [endLine] + post, isEnd) == |pre| + 1 + |table|
  {
    MarkerLastAt(pre + [startLine] + table, endLine, post, isEnd);
  }

  /** In a framed log the block is the table lines. */
  lemma FramedBlock(pre: seq<string>, startLine: string, table: seq<string>, endLine: string, post: seq<string>,
                    isStart: string -> bool, isEnd: string -> bool)
    requires Framed(startLine, table, endLine, post, isStart, isEnd)
    ensures Block(pre + [startLine] + table + [endLine] + post, isStart, isEnd) == table
  {
    var lines := pre + [startLine] + table + [endLine] + post;
    FramedStart(pre, startLine, table, endLine, post, isStart, isEnd);
    FramedEnd(pre, startLine, table, endLine, post, isStart, isEnd);
    BlockBetween(lines, isStart, isEnd);
    assert lines[|pre| + 1..|pre| + 1 + |table|] == table;
  }

  /** Any framed log whose table lines split into the headings and the rows
      parses to their column dictionary. */
  lemma FramedTable(pre: seq<string>, startLine: string, table: seq<string>, endLine: string, post: seq<string>,
                    isStart: string -> bool, isEnd: string -> bool, split: string -> seq<string>,
                    headings: seq<string>, rows: seq<seq<string>>)
    requires Framed(startLine, table, endLine, post, isStart, isEnd)
    requires |table| == |rows| + 1 && split(table[0]) == headings
    requires forall i :: 0 <= i < |rows| ==> split(table[i + 1]) == rows[i]
    ensures BlockTable(Block(pre + [startLine] + table + [endLine] + post, isStart, isEnd), split)
      == ColumnDict(headings, rows)
  {
    FramedBlock(pre, startLine, table, endLine, post, isStart, isEnd);
    BlockTableOf(table, split, headings, rows);
  }

  /** A line that starts with one marker does not start with a marker of
      another first character. */
  lemma MarkerExcludes(line: string, marker: string, other: string)
    requires LineStartsWith(line, marker) && |marker| > 0 && |other| > 0 && marker[0] != other[0]
    ensures !LineStartsWith(line, other)
  {
    var x := Strip(line);
    assert x[0] == marker[0];
    LineNotStartsWith(line, x, other);
  }

  /** A row of words whose first character begins neither marker. */
  predicate TableRow(ws: seq<string>, startMarker: string, endMarker: string)
    requires |startMarker| > 0 && |endMarker| > 0
  {
    && |ws| > 0 && (forall i :: 0 <= i < |ws| ==> IsWord(ws[i]))
    && ws[0][0] != startMarker[0] && ws[0][0] != endMarker[0]
  }

  /** The table as LAMMPS writes it: a heading line, then one line per row. */
  function ThermoLines(headings: seq<string>, rows: seq<seq<string>>): seq<string>
  {
    [SpacedLine(headings)] + Map(SpacedLine, rows)
  }

  /** A written table row starts with neither marker and splits back into its
      words. */
  lemma TableRowRead(ws: seq<string>, startMarker: string, endMarker: string)
    requires |startMarker| > 0 && |endMarker| > 0 && TableRow(ws, startMarker, endMarker)
    ensures !LineStartsWith(SpacedLine(ws), startMarker) && !LineStartsWith(SpacedLine(ws), endMarker)
    ensures Fields(SpacedLine(ws)) == ws
  {
    SpacedLineRead(ws);
    JoinHead(ws, " ");
    LineNotStartsWith(SpacedLine(ws), Join(ws, " "), startMarker);
    LineNotStartsWith(SpacedLine(ws), Join(ws, " "), endMarker);
  }

  /** The lines of a written table: the heading line, then one line per row. */
  predicate WrittenTable(table: seq<string>, headings: seq<string>, rows: seq<seq<string>>)
  {
    && |table| == |rows| + 1 && table[0] == SpacedLine(headings)
    && forall i :: 0 <= i < |rows| ==> table[i + 1] == SpacedLine(rows[i])
  }

  lemma ThermoLinesWritten(headings: seq<string>, rows: seq<seq<string>>)
    ensures WrittenTable(ThermoLines(headings, rows), headings, rows)
  {
    forall i | 0 <= i < |rows|
      ensures ThermoLines(headings, rows)[i + 1] == SpacedLine(rows[i])
    {
      MapAt(SpacedLine, rows, i);
    }
  }

  /** Line `i` of a written table starts with neither marker and splits
      back into the headings (line 0) or row `i - 1`. */
  lemma ThermoLineRead(table: seq<string>, headings: seq<string>, rows: seq<seq<string>>, i: nat,
                       startMarker: string, endMarker: string)
    requires |startMarker| > 0 && |endMarker| > 0 && i < |table|
    requires WrittenTable(table, headings, rows)
    requires TableRow(headings, startMarker, endMarker)
    requires forall k :: 0 <= k < |rows| ==> TableRow(rows[k], startMarker, endMarker)
    ensures !LineStartsWith(table[i], startMarker) && !LineStartsWith(table[i], endMarker)
    ensures Fields(table[i]) == if i == 0 then headings else rows[i - 1]
  {
    if i == 0 {
      TableRowRead(headings, startMarker, endMarker);
    } else {
      assert table[i] == SpacedLine(rows[i - 1]);
      TableRowRead(rows[i - 1], startMarker, endMarker);
    }
  }

  /** A log around a written table whose rows begin with neither marker is
      framed by the two markers. */
  lemma ThermoFramed(startLine: string, table: seq<string>, headings: seq<string>, rows: seq<seq<string>>,
                     endLine: string, post: seq<string>, startMarker: string, endMarker: string)
    requires |startMarker| > 0 && |endMarker| > 0 && startMarker[0] != endMarker[0]
    requires LineStartsWith(startLine, startMarker) && LineStartsWith(endLine, endMarker)
    requires WrittenTable(table, headings, rows)
    requires TableRow(headings, startMarker, endMarker)
    requires forall i :: 0 <= i < |rows| ==> TableRow(rows[i], startMarker, endMarker)
    requires forall i :: 0 <= i < |post| ==> !LineStartsWith(post[i], startMarker) && !LineStartsWith(post[i], endMarker)
    ensures Framed(startLine, table, endLine, post, MarkerTest(startMarker), MarkerTest(endMarker))
  {
    MarkerExcludes(endLine, endMarker, startMarker);
    forall i | 0 <= i < |table|
      ensures !LineStartsWith(table[i], startMarker) && !LineStartsWith(table[i], endMarker)
    {
      ThermoLineRead(table, headings, rows, i, startMarker, endMarker);
    }
  }

  /** The lines of a written table split back into its headings and rows. */
  lemma ThermoLinesRead(table: seq<string>, headings: seq<string>, rows: seq<seq<string>>,
                        startMarker: string, endMarker: string)
    requires |startMarker| > 0 && |endMarker| > 0
    requires WrittenTable(table, headings, rows)
    requires TableRow(headings, startMarker, endMarker)
    requires forall i :: 0 <= i < |rows| ==> TableRow(rows[i], startMarker, endMarker)
    ensures Fields(table[0]) == headings
    ensures forall i :: 0 <= i < |rows| ==> Fields(table[i + 1]) == rows[i]
  {
    TableRowRead(headings, startMarker, endMarker);
    forall i | 0 <= i < |rows|
      ensures Fields(table[i + 1]) == rows[i]
    {
      TableRowRead(rows[i], startMarker, endMarker);
    }
  }

  /** Round trip: a log whose last `Per MPI rank` line is followed by a
      written thermo table and a `Loop time` line, with no marker after it,
      parses to the column dictionary of that table. */
  lemma ThermoRoundTrip(pre: seq<string>, startLine: string, headings: seq<string>, rows: seq<seq<string>>,
                        endLine: string, post: seq<string>, startMarker: string, endMarker: string)
    requires startMarker == StartMarker && endMarker == EndMarker
    requires LineStartsWith(startLine, startMarker) && LineStartsWith(endLine, endMarker)
    requires TableRow(headings, startMarker, endMarker)
    requires forall i :: 0 <= i < |rows| ==> TableRow(rows[i], startMarker, endMarker)
    requires forall i :: 0 <= i < |post| ==> !LineStartsWith(post[i], startMarker) && !LineStartsWith(post[i], endMarker)
    ensures ThermoTable(pre + [startLine] + ThermoLines(headings, rows) + [endLine] + post) == ColumnDict(headings, rows)
  {
    var table := ThermoLines(headings, rows);
    ThermoLinesWritten(headings, rows);
    ThermoFramed(startLine, table, headings, rows, endLine, post, startMarker, endMarker);
    ThermoLinesRead(table, headings, rows, startMarker, endMarker);
    FramedTable(pre, startLine, ThermoLines(headings, rows), endLine, post,
                MarkerTest(startMarker), MarkerTest(endMarker), Fields, headings, rows);
  }
}
