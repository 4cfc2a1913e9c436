/** `FixPrintParser.parse`: columns written by a LAMMPS `fix ave/time` or
    `fix print`, headed by a comment line. The file is given as its lines;
    the `float` conversion of the cells is not modelled. */
module FixPrint {
  import opened Results
  import opened Seqs
  import opened Text
  import opened Tables

  /** Which lines hold data: those that do not start with the comment
      string once stripped (`line.strip().startswith(comment_str)`). */
  function DataFlags(lines: seq<string>, comment: string): (f: seq<bool>)
    ensures |f| == |lines|
  {
    seq(|lines|, i requires 0 <= i < |lines| => !LineStartsWith(lines[i], comment))
  }

  /** The index of the first flagged position, or -1 when there is none. */
  function FirstTrue(f: seq<bool>): (r: int)
    ensures -1 <= r < |f|
  {
    if f == [] then -1
    else
      var n := |f| - 1;
      var k := FirstTrue(f[..n]);
      if k != -1 then k else if f[n] then n else -1
  }

  /** -1 exactly when nothing is flagged; otherwise a flagged position with
      nothing flagged before it. */
  lemma {:induction false} FirstTrueSpec(f: seq<bool>)
    ensures FirstTrue(f) == -1 <==> forall i :: 0 <= i < |f| ==> !f[i]
    ensures FirstTrue(f) >= 0 ==> f[FirstTrue(f)] && forall i :: 0 <= i < FirstTrue(f) ==> !f[i]
  {
    if f != [] {
      var n := |f| - 1;
      FirstTrueSpec(f[..n]);
      assert forall i :: 0 <= i < n ==> f[..n][i] == f[i];
    }
  }

  /** The flagged elements, in order. */
  function Select<T>(s: seq<T>, f: seq<bool>): seq<T>
    requires |s| == |f|
  {
    if s == [] then []
    else
      var n := |s| - 1;
      Select(s[..n], f[..n]) + (if f[n] then [s[n]] else [])
  }

  /** The index of the first line that is not a comment, or -1. */
  function FirstDataLine(lines: seq<string>, comment: string): int
  {
    FirstTrue(DataFlags(lines, comment))
  }

  /** The lines that are not comments, in file order. */
  function DataLines(lines: seq<string>, comment: string): seq<string>
  {
    Select(lines, DataFlags(lines, comment))
  }

  /** `line.strip().split(delimiter)`; `None` splits on whitespace. An empty
      separator raises before any row is kept (see `ScanLines`), so its value
      here is never used. */
  function SplitRow(line: string, delimiter: Option<string>): seq<string>
  {
    match delimiter
    case None => Fields(line)
    case Some(d) => if d == "" then [] else SplitOn(Strip(line), d)
  }

  /** `SplitRow` for a fixed delimiter. */
  function RowSplitter(delimiter: Option<string>): string -> seq<string>
  {
    line => SplitRow(line, delimiter)
  }

  /** Every data line split into a row, in order. */
  function SplitRows(data: seq<string>, delimiter: Option<string>): (rows: seq<seq<string>>)
    ensures |rows| == |data|
  {
    Map(RowSplitter(delimiter), data)
  }

  /** `line.replace(comment_str, '').strip().split()`. */
  function Headings(line: string, comment: string): seq<string>
  {
    SplitWs(Strip(RemoveAll(line, comment)))
  }

  /** What follows the scan: the headings are read from the line before the
      first data line (Python indexing, so index -1 is the last line) and
      heading `i` is mapped to column `i` of the rows. */
  function HeadedTable(lines: seq<string>, comment: string, first: int, rows: seq<seq<string>>): Result<map<string, seq<string>>, ParseError>
  {
    match PyIndex(|lines|, first - 1)
    case None => Err(NoHeadingLine(first - 1))
    case Some(k) => ColumnDict(Headings(lines[k], comment), rows)
  }

  /** The dictionary `parse` returns: one row per data line, in file order,
      under the headings of the line before the first data line. */
  function Table(lines: seq<string>, comment: string, delimiter: Option<string>): Result<map<string, seq<string>>, ParseError>
  {
    var data := DataLines(lines, comment);
    if delimiter == Some("") && data != [] then Err(EmptySeparator)
    else HeadedTable(lines, comment, FirstDataLine(lines, comment), SplitRows(data, delimiter))
  }

  /** `parse(path, comment_str, delimiter)` on the lines of the file: the
      scan, then the heading lookup and the dictionary. */
  method Parse(lines: seq<string>, comment: string, delimiter: Option<string>) returns (r: Result<map<string, seq<string>>, ParseError>)
    ensures r == Table(lines, comment, delimiter)
  {
    var firstDataLine, rows, scanned := ScanLines(lines, comment, delimiter == Some(""), RowSplitter(delimiter));
    if scanned.Fail? {
      TableEmptySeparator(lines, comment);
      return Err(scanned.error);
    }
    if delimiter == Some("") {
      assert Map(RowSplitter(delimiter), DataLines(lines, comment)) == [];
    }
    r := HeadedTable(lines, comment, firstDataLine, rows);
  }

  /** The loop of `parse`: one pass records the first data line and splits
      every data line with `split`; when `emptySeparator` holds, splitting
      raises at the first data line. */
  method ScanLines(lines: seq<string>, comment: string, emptySeparator: bool, split: string -> seq<string>)
    returns (firstDataLine: int, rows: seq<seq<string>>, r: Outcome<ParseError>)
    ensures r.Fail? <==> emptySeparator && DataLines(lines, comment) != []
    ensures r.Fail? ==> r.error == EmptySeparator
    ensures r.Pass? ==> firstDataLine == FirstDataLine(lines, comment)
    ensures r.Pass? ==> rows == Map(split, DataLines(lines, comment))
  {
    firstDataLine := -1;
    rows := [];
    ghost var flags := DataFlags(lines, comment);
    ghost var data: seq<string> := [];
    var i := 0;
    while i < |lines|
      invariant 0 <= i <= |lines|
      invariant firstDataLine == FirstTrue(flags[..i])
      invariant data == Select(lines[..i], flags[..i])
      invariant rows == Map(split, data)
      invariant emptySeparator ==> data == []
    {
      ScanStep(lines, flags, i);
      assert flags[i] == !LineStartsWith(lines[i], comment);
      if !LineStartsWith(lines[i], comment) {
        if firstDataLine == -1 {
          firstDataLine := i;
        }
        if emptySeparator {
          SelectNonEmpty(lines, flags, i);
          return firstDataLine, rows, Fail(EmptySeparator);
        }
        var row := split(lines[i]);
        MapAppend(split, data, lines[i]);
        rows := rows + [row];
        data := data + [lines[i]];
      }
      i := i + 1;
    }
    assert lines[..i] == lines && flags[..i] == flags;
    r := Pass;
  }

  lemma TableEmptySeparator(lines: seq<string>, comment: string)
    requires DataLines(lines, comment) != []
    ensures Table(lines, comment, Some("")) == Err(EmptySeparator)
  {
  }

  /** One line of the scan: a data line extends the selection and may be
      the first one; a comment line changes nothing. */
  lemma ScanStep<T>(s: seq<T>, f: seq<bool>, i: nat)
    requires |s| == |f| && i < |s|
    ensures f[i] ==> Select(s[..i + 1], f[..i + 1]) == Select(s[..i], f[..i]) + [s[i]]
    ensures !f[i] ==> Select(s[..i + 1], f[..i + 1]) == Select(s[..i], f[..i])
    ensures f[i] && FirstTrue(f[..i]) == -1 ==> FirstTrue(f[..i + 1]) == i
    ensures !f[i] || FirstTrue(f[..i]) != -1 ==> FirstTrue(f[..i + 1]) == FirstTrue(f[..i])
  {
    SelectStep(s, f, i);
    FirstTrueStep(f, i);
    assert Select(s[..i], f[..i]) + [] == Select(s[..i], f[..i]);
  }

  lemma SelectStep<T>(s: seq<T>, f: seq<bool>, i: nat)
    requires |s| == |f| && i < |s|
    ensures Select(s[..i + 1], f[..i + 1]) == Select(s[..i], f[..i]) + (if f[i] then [s[i]] else [])
  {
    assert s[..i + 1][..i] == s[..i];
    assert f[..i + 1][..i] == f[..i];
  }

  lemma FirstTrueStep(f: seq<bool>, i: nat)
    requires i < |f|
    ensures FirstTrue(f[..i + 1]) ==
      if FirstTrue(f[..i]) != -1 then FirstTrue(f[..i])
      else if f[i] then i
      else -1
  {
    assert f[..i + 1][..i] == f[..i];
  }

  /** Selecting from two consecutive pieces selects from the first and then
      from the second: the order of the kept elements is the original one. */
  lemma {:induction false} SelectAppend<T>(a: seq<T>, fa: seq<bool>, b: seq<T>, fb: seq<bool>)
    requires |a| == |fa| && |b| == |fb|
    ensures Select(a + b, fa + fb) == Select(a, fa) + Select(b, fb)
    decreases |b|
  {
    if b == [] {
      assert a + b == a && fa + fb == fa;
    } else {
      var n := |b| - 1;
      assert (a + b)[..|a + b| - 1] == a + b[..n];
      assert (fa + fb)[..|fa + fb| - 1] == fa + fb[..n];
      SelectAppend(a, fa, b[..n], fb[..n]);
    }
  }

  /** Every selected element is a flagged one, and every flagged one is selected. */
  lemma {:induction false} SelectMembers<T>(s: seq<T>, f: seq<bool>)
    requires |s| == |f|
    ensures forall x :: x in Select(s, f) ==> exists i :: 0 <= i < |s| && f[i] && s[i] == x
    ensures forall i :: 0 <= i < |s| && f[i] ==> s[i] in Select(s, f)
  {
    if s != [] {
      var n := |s| - 1;
      SelectMembers(s[..n], f[..n]);
      assert forall i :: 0 <= i < n ==> s[..n][i] == s[i] && f[..n][i] == f[i];
    }
  }

  lemma SelectNonEmpty<T>(s: seq<T>, f: seq<bool>, i: nat)
    requires |s| == |f| && i < |s| && f[i]
    ensures Select(s, f) != []
  {
    SelectMembers(s, f);
  }

  /** Nothing is selected when nothing is flagged. */
  lemma {:induction false} SelectNone<T>(s: seq<T>, f: seq<bool>)
    requires |s| == |f| && forall i :: 0 <= i < |f| ==> !f[i]
    ensures Select(s, f) == []
  {
    if s != [] {
      var n := |s| - 1;
      assert forall i :: 0 <= i < n ==> f[..n][i] == f[i];
      SelectNone(s[..n], f[..n]);
    }
  }

  /** The first selected element is the one at the first flagged position. */
  lemma {:induction false} SelectFirst<T>(s: seq<T>, f: seq<bool>)
    requires |s| == |f| && FirstTrue(f) >= 0
    ensures var d := Select(s, f); d != [] && d[0] == s[FirstTrue(f)]
  {
    var n := |s| - 1;
    if FirstTrue(f[..n]) != -1 {
      SelectFirst(s[..n], f[..n]);
    } else {
      FirstTrueSpec(f[..n]);
      SelectNone(s[..n], f[..n]);
    }
  }

  /** The data lines of consecutive pieces of a file are those of the first
      piece followed by those of the second: comment lines are skipped
      wherever they are, and the other lines keep their order. */
  lemma DataLinesAppend(a: seq<string>, b: seq<string>, comment: string)
    ensures DataLines(a + b, comment) == DataLines(a, comment) + DataLines(b, comment)
  {
    assert DataFlags(a + b, comment) == DataFlags(a, comment) + DataFlags(b, comment);
    SelectAppend(a, DataFlags(a, comment), b, DataFlags(b, comment));
  }

  /** The data lines are exactly the lines that are not comments. */
  lemma DataLinesMembers(lines: seq<string>, comment: string)
    ensures forall l :: l in DataLines(lines, comment) ==> l in lines && !LineStartsWith(l, comment)
    ensures forall i :: 0 <= i < |lines| && !LineStartsWith(lines[i], comment) ==> lines[i] in DataLines(lines, comment)
  {
    SelectMembers(lines, DataFlags(lines, comment));
  }

  /** The first data line is the first line that is not a comment, and the
      first row comes from it. */
  lemma DataLinesFirst(lines: seq<string>, comment: string)
    requires FirstDataLine(lines, comment) >= 0
    ensures var f := FirstDataLine(lines, comment);
      DataLines(lines, comment) != [] && DataLines(lines, comment)[0] == lines[f]
  {
    SelectFirst(lines, DataFlags(lines, comment));
  }

  /** -1 exactly when every line is a comment; otherwise a data line with
      only comment lines before it. */
  lemma FirstDataLineSpec(lines: seq<string>, comment: string)
    ensures var f := FirstDataLine(lines, comment);
      && (f == -1 <==> forall i :: 0 <= i < |lines| ==> LineStartsWith(lines[i], comment))
      && (f >= 0 ==> !LineStartsWith(lines[f], comment) && forall i :: 0 <= i < f ==> LineStartsWith(lines[i], comment))
  {
    var flags := DataFlags(lines, comment);
    FirstTrueSpec(flags);
    forall i | 0 <= i < |lines|
      ensures flags[i] == !LineStartsWith(lines[i], comment)
    {
    }
  }

  /** The heading line is the one before the first data line; when the file
      starts with data it is the last line, and when it has no data line it
      is the second-to-last. */
  lemma HeadingLineIndex(lines: seq<string>, comment: string)
    requires |lines| > 0
    ensures var f := FirstDataLine(lines, comment);
      && (f > 0 ==> PyIndex(|lines|, f - 1) == Some(f - 1))
      && (f == 0 ==> PyIndex(|lines|, f - 1) == Some(|lines| - 1))
      && (f == -1 ==> PyIndex(|lines|, f - 1) == if |lines| >= 2 then Some(|lines| - 2) else None)
  {
  }

  /** A token that `split()` keeps whole and that holds no `#`. */
  predicate PlainWord(w: string)
  {
    IsWord(w) && '#' !in w
  }

  predicate PlainWords(ws: seq<string>)
  {
    |ws| > 0 && forall i :: 0 <= i < |ws| ==> PlainWord(ws[i])
  }

  /** The heading line a `fix ave/time` writes: `#`, then the names. */
  function HeadingLine(headings: seq<string>): string
  {
    "# " + Join(headings, " ") + "\n"
  }

  /** A file of columns: a `#` heading line, then one line per row. */
  function ColumnFile(headings: seq<string>, rows: seq<seq<string>>): seq<string>
  {
    [HeadingLine(headings)] + Map(SpacedLine, rows)
  }

  /** The heading line is a comment and reads back as its names. */
  lemma HeadingLineRead(hs: seq<string>, comment: string)
    requires PlainWords(hs) && comment == "#"
    ensures LineStartsWith(HeadingLine(hs), comment) && Headings(HeadingLine(hs), comment) == hs
  {
    assert forall i :: 0 <= i < |hs| ==> IsWord(hs[i]);
    JoinWordsEnds(hs);
    HeadingLineComment(hs, Join(hs, " "), comment);
    HeadingLineNames(hs, Join(hs, " "), comment);
  }

  lemma HeadingLineComment(hs: seq<string>, j: string, comment: string)
    requires j == Join(hs, " ") && comment == "#"
    requires |j| > 0 && !IsSpace(j[|j| - 1])
    ensures LineStartsWith(HeadingLine(hs), comment)
  {
    var x := "# " + j;
    assert Strip(HeadingLine(hs)) == x by {
      assert x[0] == '#' && x[|x| - 1] == j[|j| - 1];
      StripNewline(x);
      assert HeadingLine(hs) == x + "\n";
    }
    assert x[..1] == comment;
  }

  lemma HeadingLineNames(hs: seq<string>, j: string, comment: string)
    requires j == Join(hs, " ") && comment == "#" && PlainWords(hs)
    requires |j| > 0 && !IsSpace(j[0]) && !IsSpace(j[|j| - 1])
    ensures Headings(HeadingLine(hs), comment) == hs
  {
    var pre: string := " ";
    var post: string := "\n";
    var rest := pre + j + post;
    assert RemoveAll(HeadingLine(hs), comment) == rest by {
      JoinAvoids(hs, '#');
      assert HeadingLine(hs) == "#" + rest;
      assert (comment + rest)[..1] == comment && (comment + rest)[1..] == rest;
      assert '#' !in rest;
      RemoveAllAbsent(rest, '#');
    }
    assert Strip(rest) == j by {
      assert IsSpace(pre[0]) && IsSpace(post[0]);
      StripPadded(pre, j, post);
    }
    assert forall i :: 0 <= i < |hs| ==> IsWord(hs[i]);
    SplitJoin(hs);
  }

  lemma RowLineData(row: seq<string>, comment: string)
    requires PlainWords(row) && comment == "#"
    ensures !LineStartsWith(SpacedLine(row), comment)
  {
    var j := Join(row, " ");
    assert forall i :: 0 <= i < |row| ==> IsWord(row[i]);
    SpacedLineRead(row);
    RowLineFirst(row);
    LineNotStartsWith(SpacedLine(row), j, comment);
  }

  lemma RowLineFirst(row: seq<string>)
    requires PlainWords(row)
    ensures |Join(row, " ")| > 0 && Join(row, " ")[0] != '#'
  {
    JoinHead(row, " ");
    assert PlainWord(row[0]);
    assert row[0][0] in row[0];
  }

  /** A comment line followed by data lines: the data is everything after
      the first line, and it starts at line 1. */
  lemma HeadedData(heading: string, body: seq<string>, comment: string)
    requires LineStartsWith(heading, comment)
    requires forall i :: 0 <= i < |body| ==> !LineStartsWith(body[i], comment)
    ensures DataLines([heading] + body, comment) == body
    ensures |body| > 0 ==> FirstDataLine([heading] + body, comment) == 1
  {
    var lines := [heading] + body;
    var flags := DataFlags(lines, comment);
    forall i | 1 <= i < |flags|
      ensures flags[i]
    {
      assert lines[i] == body[i - 1];
    }
    assert !flags[0];
    SelectTail(lines, flags);
    assert lines[1..] == body;
  }

  /** Everything but an unflagged first element is flagged: all but the
      first element are selected, and the first flag is at position 1. */
  lemma {:induction false} SelectTail<T>(s: seq<T>, f: seq<bool>)
    requires |s| == |f| > 0 && !f[0]
    requires forall i :: 1 <= i < |f| ==> f[i]
    ensures Select(s, f) == s[1..]
    ensures FirstTrue(f) == if |f| > 1 then 1 else -1
  {
    var n := |s| - 1;
    if n == 0 {
      assert s[..n] == [];
    } else {
      assert forall i :: 1 <= i < n ==> f[..n][i] == f[i];
      SelectTail(s[..n], f[..n]);
      assert s[..n][1..] + [s[n]] == s[1..];
    }
  }

  /** Rows split line by line are the rows of the lines. */
  lemma SplitRowsEach(body: seq<string>, rows: seq<seq<string>>, delimiter: Option<string>)
    requires |body| == |rows|
    requires forall i :: 0 <= i < |body| ==> SplitRow(body[i], delimiter) == rows[i]
    ensures SplitRows(body, delimiter) == rows
  {
    var split := SplitRows(body, delimiter);
    forall i | 0 <= i < |rows|
      ensures split[i] == rows[i]
    {
      MapAt(RowSplitter(delimiter), body, i);
    }
  }

  /** Each row line of a column file is data and splits back into its row. */
  lemma ColumnFileLine(rows: seq<seq<string>>, i: nat, comment: string, delimiter: Option<string>)
    requires comment == "#" && delimiter == None
    requires i < |rows| && PlainWords(rows[i])
    ensures !LineStartsWith(Map(SpacedLine, rows)[i], comment)
    ensures SplitRow(Map(SpacedLine, rows)[i], delimiter) == rows[i]
  {
    MapAt(SpacedLine, rows, i);
    RowLineData(rows[i], comment);
    assert forall k :: 0 <= k < |rows[i]| ==> IsWord(rows[i][k]);
    SpacedLineRead(rows[i]);
  }

  /** Any file made of one comment line followed by data lines parses to
      the column dictionary of the comment's headings and the lines' rows. */
  lemma HeadedRoundTrip(heading: string, body: seq<string>, headings: seq<string>, rows: seq<seq<string>>,
                        comment: string, delimiter: Option<string>)
    requires LineStartsWith(heading, comment) && Headings(heading, comment) == headings
    requires delimiter != Some("")
    requires |body| == |rows| > 0
    requires forall i :: 0 <= i < |body| ==> !LineStartsWith(body[i], comment) && SplitRow(body[i], delimiter) == rows[i]
    ensures Table([heading] + body, comment, delimiter) == ColumnDict(headings, rows)
  {
    var lines := [heading] + body;
    HeadedData(heading, body, comment);
    SplitRowsEach(body, rows, delimiter);
    assert PyIndex(|lines|, 0) == Some(0);
  }

  /** Every row line of a column file is data and reads back as its row. */
  lemma SpacedLinesRead(rows: seq<seq<string>>, comment: string, delimiter: Option<string>)
    requires comment == "#" && delimiter == None
    requires forall i :: 0 <= i < |rows| ==> PlainWords(rows[i])
    ensures forall i :: 0 <= i < |rows| ==>
      !LineStartsWith(Map(SpacedLine, rows)[i], comment) && SplitRow(Map(SpacedLine, rows)[i], delimiter) == rows[i]
  {
    forall i | 0 <= i < |rows|
      ensures !LineStartsWith(Map(SpacedLine, rows)[i], comment) && SplitRow(Map(SpacedLine, rows)[i], delimiter) == rows[i]
    {
      ColumnFileLine(rows, i, comment, delimiter);
    }
  }

  /** Round trip: a `#` heading line followed by rows of cells parses to the
      column dictionary of those headings and rows, which exists. */
  lemma ColumnFileRoundTrip(headings: seq<string>, rows: seq<seq<string>>, comment: string, delimiter: Option<string>)
    requires comment == "#" && delimiter == None
    requires PlainWords(headings)
    requires |rows| > 0 && forall i :: 0 <= i < |rows| ==> |rows[i]| == |headings| && PlainWords(rows[i])
    ensures Table(ColumnFile(headings, rows), comment, delimiter) == ColumnDict(headings, rows)
    ensures ColumnDict(headings, rows).Ok?
  {
    ColumnDictFull(headings, rows);
    HeadingLineRead(headings, comment);
    SpacedLinesRead(rows, comment, delimiter);
    HeadedRoundTrip(HeadingLine(headings), Map(SpacedLine, rows), headings, rows, comment, delimiter);
  }
}
