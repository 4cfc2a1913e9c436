/** The table of free variables of a LAMMPS in-file (myscripts/src/FileIO/InFile.py):
    lines `variable <name> <style> <number>` whose number is a plain decimal
    literal, and the rewriting of exactly those lines. */
module InFiles {
  import opened Results
  import opened Text
  import opened FileSystems

  /** Each free variable's value (its literal text) and its 0-based line. */
  datatype VarTable = VarTable(values: map<string, string>, lineNumbers: map<string, nat>)

  datatype InFileError =
    | Io(fsError: FsError)
      // a `variable` line with fewer than four fields (ValueError when unpacking)
    | TooFewFields(line: nat)
      // a recorded line number past the end of the file being edited (IndexError)
    | LineMissing(name: string, line: nat)

  /** How the parser sees one line. */
  datatype LineKind =
    | Malformed                              // `variable` line with fewer than four fields
    | FreeDecl(name: string, value: string)  // declaration of a free variable
    | Ignored                                // anything else

  /** `line.strip().startswith("variable")`. */
  predicate IsVariableLine(line: string)
  {
    StartsWith(Strip(line), "variable")
  }

  /** `value.replace('.', '', 1).isdigit()`: digits with at most one dot; no sign,
      exponent or expression. */
  predicate IsFreeValue(v: string)
  {
    IsDigits(RemoveFirstDot(v))
  }

  /** The tests `__parse_variables` applies to one line. */
  function Classify(line: string): LineKind
  {
    if !IsVariableLine(line) then Ignored
    else
      var f := Fields(line);
      if |f| < 4 then Malformed
      else if IsFreeValue(f[3]) then FreeDecl(f[1], f[3])
      else Ignored
  }

  function Kinds(lines: seq<string>): (ks: seq<LineKind>)
    ensures |ks| == |lines|
  {
    seq(|lines|, i requires 0 <= i < |lines| => Classify(lines[i]))
  }

  /** The effect of line `n` on the table built from the lines before it. */
  function ParseStep(t: VarTable, k: LineKind, n: nat): Result<VarTable, InFileError>
  {
    match k
    case Malformed => Err(TooFewFields(n))
    case Ignored => Ok(t)
    case FreeDecl(name, value) => Ok(VarTable(t.values[name := value], t.lineNumbers[name := n]))
  }

  /** The table built from classified lines, one line at a time. */
  function ParseKinds(ks: seq<LineKind>): Result<VarTable, InFileError>
  {
    if ks == [] then Ok(VarTable(map[], map[]))
    else
      var n := |ks| - 1;
      match ParseKinds(ks[..n])
      case Err(e) => Err(e)
      case Ok(t) => ParseStep(t, ks[n], n)
  }

  /** What `__parse_variables` records from the lines of a file: a later
      declaration of a name replaces an earlier one. */
  function ParseLines(lines: seq<string>): Result<VarTable, InFileError>
  {
    ParseKinds(Kinds(lines))
  }

  /** Both maps have the same names and no two names share a line. */
  ghost predicate WellFormed(t: VarTable)
  {
    && t.values.Keys == t.lineNumbers.Keys
    && forall a, b :: a in t.lineNumbers && b in t.lineNumbers && a != b ==> t.lineNumbers[a] != t.lineNumbers[b]
  }

  /** A parse error is never undone by later lines. */
  lemma {:induction false} ParseErrorPersists(ks: seq<LineKind>, k: nat)
    requires k <= |ks| && ParseKinds(ks[..k]).Err?
    ensures ParseKinds(ks) == ParseKinds(ks[..k])
    decreases |ks| - k
  {
    if k == |ks| {
      assert ks[..k] == ks;
    } else {
      var n := |ks| - 1;
      assert ks[..n][..k] == ks[..k];
      ParseErrorPersists(ks[..n], k);
    }
  }

  /** The parse of one more line is one more step. */
  lemma ParsePrefixStep(ks: seq<LineKind>, i: nat)
    requires i < |ks|
    ensures ParseKinds(ks[..i + 1]) == match ParseKinds(ks[..i])
      case Err(e) => Err(e)
      case Ok(t) => ParseStep(t, ks[i], i)
  {
    assert ks[..i + 1][..i] == ks[..i];
  }

  /** Parsing fails exactly when some `variable` line has fewer than four
      fields, and it names the first such line. */
  lemma {:induction false} ParseKindsFails(ks: seq<LineKind>)
    ensures ParseKinds(ks).Err? <==> exists j :: 0 <= j < |ks| && ks[j] == Malformed
    ensures ParseKinds(ks).Err? ==>
      exists j :: 0 <= j < |ks| && ParseKinds(ks).error == TooFewFields(j) && ks[j] == Malformed
        && forall i :: 0 <= i < j ==> ks[i] != Malformed
  {
    if ks != [] {
      var n := |ks| - 1;
      var p := ks[..n];
      ParseKindsFails(p);
      assert forall j :: 0 <= j < n ==> p[j] == ks[j];
      if ParseKinds(p).Err? {
        var j :| 0 <= j < n && ParseKinds(p).error == TooFewFields(j) && p[j] == Malformed
          && forall i :: 0 <= i < j ==> p[i] != Malformed;
        assert ks[j] == Malformed;
      }
    }
  }

  /** The facts a successful parse gives about the table it builds. */
  ghost predicate RecordsLast(ks: seq<LineKind>, t: VarTable)
  {
    && t.values.Keys == t.lineNumbers.Keys
    && (forall k :: k in t.lineNumbers ==>
          && t.lineNumbers[k] < |ks|
          && ks[t.lineNumbers[k]] == FreeDecl(k, t.values[k])
          && forall j :: t.lineNumbers[k] < j < |ks| ==> !(ks[j].FreeDecl? && ks[j].name == k))
    && (forall j :: 0 <= j < |ks| && ks[j].FreeDecl? ==> ks[j].name in t.lineNumbers)
  }

  /** A successful parse records, for every name, the LAST line that declares
      it with its value, and records every declared name. */
  lemma {:induction false} ParseKindsRecordsLast(ks: seq<LineKind>)
    requires ParseKinds(ks).Ok?
    ensures RecordsLast(ks, ParseKinds(ks).value)
  {
    if ks != [] {
      var n := |ks| - 1;
      var p := ks[..n];
      ParseKindsRecordsLast(p);
      assert ks == p + [ks[n]];
      RecordsLastStep(p, ParseKinds(p).value, ks[n]);
    }
  }

  /** One more declaration or ignored line keeps the record of last declarations. */
  lemma RecordsLastStep(p: seq<LineKind>, t: VarTable, k: LineKind)
    requires RecordsLast(p, t) && !k.Malformed?
    ensures RecordsLast(p + [k], ParseStep(t, k, |p|).value)
  {
    var ks := p + [k];
    assert forall j :: 0 <= j < |p| ==> ks[j] == p[j];
    if k.FreeDecl? {
      RecordsLastDecl(p, t, k.name, k.value);
    }
  }

  lemma RecordsLastDecl(p: seq<LineKind>, t: VarTable, name: string, value: string)
    requires RecordsLast(p, t)
    ensures RecordsLast(p + [FreeDecl(name, value)], ParseStep(t, FreeDecl(name, value), |p|).value)
  {
    var ks := p + [FreeDecl(name, value)];
    var t2 := ParseStep(t, FreeDecl(name, value), |p|).value;
    assert forall j :: 0 <= j < |p| ==> ks[j] == p[j];
    forall k | k in t2.lineNumbers
      ensures && t2.lineNumbers[k] < |ks|
              && ks[t2.lineNumbers[k]] == FreeDecl(k, t2.values[k])
              && forall j :: t2.lineNumbers[k] < j < |ks| ==> !(ks[j].FreeDecl? && ks[j].name == k)
    {
      if k != name {
        assert t2.lineNumbers[k] == t.lineNumbers[k];
      }
    }
  }

  /** The recorded line numbers are distinct and inside the file, since each
      line declares at most one name. */
  lemma ParsedTableWellFormed(lines: seq<string>)
    requires ParseLines(lines).Ok?
    ensures WellFormed(ParseLines(lines).value)
    ensures forall k :: k in ParseLines(lines).value.lineNumbers ==> ParseLines(lines).value.lineNumbers[k] < |lines|
  {
    ParseKindsRecordsLast(Kinds(lines));
  }

  /** The line `edit_variables` writes for `name`. */
  function DeclarationLine(name: string, value: string): string
  {
    "variable " + name + " equal " + value + "\n"
  }

  /** Whether line `i` is the recorded line of a changed name of the table. */
  ghost predicate Targeted(t: VarTable, changes: map<string, string>, i: nat)
  {
    exists k :: k in changes && k in t.lineNumbers && t.lineNumbers[k] == i
  }

  /** The lines after `edit_variables(changes)` against table `t`: the recorded
      line of every changed name of the table is rewritten, every other line
      is kept. */
  ghost function Edited(lines: seq<string>, t: VarTable, changes: map<string, string>): (r: seq<string>)
    ensures |r| == |lines|
  {
    seq(|lines|, i requires 0 <= i < |lines| =>
      if Targeted(t, changes, i)
      then
        var k :| k in changes && k in t.lineNumbers && t.lineNumbers[k] == i;
        DeclarationLine(k, changes[k])
      else lines[i])
  }

  /** What the rewrite promises: same line count, each targeted line in the
      canonical form, every other line untouched. */
  lemma EditedLines(lines: seq<string>, t: VarTable, changes: map<string, string>)
    requires WellFormed(t)
    ensures |Edited(lines, t, changes)| == |lines|
    ensures forall k :: k in changes && k in t.lineNumbers && t.lineNumbers[k] < |lines| ==>
      Edited(lines, t, changes)[t.lineNumbers[k]] == DeclarationLine(k, changes[k])
    ensures forall i :: 0 <= i < |lines| && !Targeted(t, changes, i) ==> Edited(lines, t, changes)[i] == lines[i]
  {
  }

  /** Names missing from the table change nothing. */
  lemma EditIgnoresUnknownNames(lines: seq<string>, t: VarTable, changes: map<string, string>)
    requires WellFormed(t)
    ensures Edited(lines, t, changes) == Edited(lines, t, map k | k in changes && k in t.lineNumbers :: changes[k])
  {
    var known := map k | k in changes && k in t.lineNumbers :: changes[k];
    forall i | 0 <= i < |lines|
      ensures Edited(lines, t, changes)[i] == Edited(lines, t, known)[i]
    {
      if Targeted(t, changes, i) {
        var k :| k in changes && k in t.lineNumbers && t.lineNumbers[k] == i;
        assert k in known;
      }
    }
  }

  /** Applying the same changes twice gives the same lines as applying them once. */
  lemma EditIdempotent(lines: seq<string>, t: VarTable, changes: map<string, string>)
    ensures Edited(Edited(lines, t, changes), t, changes) == Edited(lines, t, changes)
  {
  }

  /** One more changed name rewrites one more line. */
  lemma EditOneMore(lines: seq<string>, t: VarTable, done: map<string, string>, k: string, v: string)
    requires WellFormed(t) && k !in done && k in t.lineNumbers && t.lineNumbers[k] < |lines|
    ensures Edited(lines, t, done)[t.lineNumbers[k] := DeclarationLine(k, v)] == Edited(lines, t, done[k := v])
  {
    var idx := t.lineNumbers[k];
    var e := Edited(lines, t, done)[idx := DeclarationLine(k, v)];
    forall i | 0 <= i < |lines|
      ensures e[i] == Edited(lines, t, done[k := v])[i]
    {
      if i == idx {
        assert Targeted(t, done[k := v], i);
      } else if Targeted(t, done[k := v], i) {
        var k' :| k' in done[k := v] && k' in t.lineNumbers && t.lineNumbers[k'] == i;
        assert k' in done;
      }
    }
  }

  /** A name outside the table rewrites nothing. */
  lemma EditUnknownName(lines: seq<string>, t: VarTable, done: map<string, string>, k: string, v: string)
    requires WellFormed(t) && k !in t.lineNumbers
    ensures Edited(lines, t, done) == Edited(lines, t, done[k := v])
  {
    forall i | 0 <= i < |lines|
      ensures Edited(lines, t, done)[i] == Edited(lines, t, done[k := v])[i]
    {
      if Targeted(t, done[k := v], i) {
        var k' :| k' in done[k := v] && k' in t.lineNumbers && t.lineNumbers[k'] == i;
        assert k' in done;
      }
    }
  }

  /** A free value is a single word: digits and at most one dot. */
  lemma {:induction false} FreeValueIsWord(v: string)
    requires IsFreeValue(v)
    ensures IsWord(v)
  {
    RemoveFirstDotKeeps(v);
    assert v != [];
  }

  /** Every character but a dot survives `replace('.', '', 1)`. */
  lemma {:induction false} RemoveFirstDotKeeps(v: string)
    ensures forall i :: 0 <= i < |v| ==> v[i] == '.' || v[i] in RemoveFirstDot(v)
  {
    if v != [] && v[0] != '.' {
      RemoveFirstDotKeeps(v[1..]);
      assert forall i :: 1 <= i < |v| ==> v[i] == v[1..][i - 1];
    }
  }

  /** A declared name is a single word. */
  lemma ClassifiedNameIsWord(line: string)
    requires Classify(line).FreeDecl?
    ensures IsWord(Classify(line).name)
  {
    SplitWsWords(Strip(line));
  }

  /** The rewritten line, stripped, is its four fields joined by spaces. */
  lemma {:induction false} DeclarationLineStrip(name: string, value: string)
    requires IsWord(name) && IsWord(value)
    ensures Strip(DeclarationLine(name, value)) == Join(["variable", name, "equal", value], " ")
  {
    var ws := ["variable", name, "equal", value];
    var body := Join(ws, " ");
    assert Join(ws[3..], " ") == value;
    assert Join(ws[2..], " ") == "equal " + value;
    assert Join(ws[1..], " ") == name + " equal " + value;
    assert body == "variable " + name + " equal " + value;
    assert DeclarationLine(name, value) == [] + body + "\n";
    JoinWordsEnds(ws);
    StripPadded([], body, "\n");
  }

  /** The rewritten line declares the new value of the same free variable. */
  lemma {:induction false} ClassifyDeclarationLine(name: string, value: string)
    requires IsWord(name) && IsFreeValue(value)
    ensures Classify(DeclarationLine(name, value)) == FreeDecl(name, value)
  {
    FreeValueIsWord(value);
    var ws := ["variable", name, "equal", value];
    DeclarationLineStrip(name, value);
    var stripped := Strip(DeclarationLine(name, value));
    assert stripped[..8] == "variable";
    assert IsVariableLine(DeclarationLine(name, value));
    SplitJoin(ws);
    assert Fields(DeclarationLine(name, value)) == ws;
  }

  /** `Edited` as the parser sees it: each targeted line declares its new value. */
  ghost function EditedKinds(ks: seq<LineKind>, t: VarTable, changes: map<string, string>): (r: seq<LineKind>)
    ensures |r| == |ks|
  {
    seq(|ks|, i requires 0 <= i < |ks| =>
      if Targeted(t, changes, i)
      then
        var k :| k in changes && k in t.lineNumbers && t.lineNumbers[k] == i;
        FreeDecl(k, changes[k])
      else ks[i])
  }

  /** The table with the changed values of its names replaced. */
  function Revalued(t: VarTable, changes: map<string, string>): VarTable
  {
    VarTable(map k | k in t.values :: if k in changes then changes[k] else t.values[k], t.lineNumbers)
  }

  /** What re-parsing the first `n` edited lines records: the table of the
      first `n` original lines, with the new value for every changed name whose
      final declaration lies among them. */
  ghost function PartlyRevalued(tn: VarTable, t: VarTable, changes: map<string, string>, n: nat): VarTable
  {
    VarTable(map k | k in tn.values ::
               if k in changes && k in t.lineNumbers && t.lineNumbers[k] < n then changes[k] else tn.values[k],
             tn.lineNumbers)
  }

  /** One line of the re-parse: the edited line moves the partial table along
      exactly as the original line moves the original table. */
  lemma ReparseStep(ks: seq<LineKind>, t: VarTable, changes: map<string, string>, m: nat, tm: VarTable)
    requires m < |ks| && ks[m] != Malformed
    requires forall k :: k in t.lineNumbers && t.lineNumbers[k] == m ==> ks[m].FreeDecl? && ks[m].name == k
    requires ks[m].FreeDecl? ==> ks[m].name in t.lineNumbers && t.lineNumbers[ks[m].name] >= m
    ensures ParseStep(PartlyRevalued(tm, t, changes, m), EditedKinds(ks, t, changes)[m], m)
         == Ok(PartlyRevalued(ParseStep(tm, ks[m], m).value, t, changes, m + 1))
  {
    var e := EditedKinds(ks, t, changes);
    if ks[m] == Ignored {
      assert !Targeted(t, changes, m);
      assert e[m] == Ignored;
      ReparseKeep(tm, t, changes, m);
    } else if Targeted(t, changes, m) {
      var k :| k in changes && k in t.lineNumbers && t.lineNumbers[k] == m;
      assert e[m] == FreeDecl(k, changes[k]);
      ReparseTargeted(tm, t, changes, m, k, ks[m].value);
    } else {
      assert e[m] == ks[m];
      ReparseUntargeted(tm, t, changes, m, ks[m].name, ks[m].value);
    }
  }

  lemma ReparseKeep(tm: VarTable, t: VarTable, changes: map<string, string>, m: nat)
    requires forall k :: k in t.lineNumbers ==> t.lineNumbers[k] != m
    ensures PartlyRevalued(tm, t, changes, m) == PartlyRevalued(tm, t, changes, m + 1)
  {
    var pm := PartlyRevalued(tm, t, changes, m);
    var pn := PartlyRevalued(tm, t, changes, m + 1);
    assert forall k :: k in pn.values ==> pn.values[k] == pm.values[k];
  }

  lemma ReparseTargeted(tm: VarTable, t: VarTable, changes: map<string, string>, m: nat, k2: string, v: string)
    requires k2 in changes && k2 in t.lineNumbers && t.lineNumbers[k2] == m
    requires forall k :: k in t.lineNumbers && t.lineNumbers[k] == m ==> k == k2
    ensures var pm := PartlyRevalued(tm, t, changes, m);
      PartlyRevalued(VarTable(tm.values[k2 := v], tm.lineNumbers[k2 := m]), t, changes, m + 1)
        == VarTable(pm.values[k2 := changes[k2]], pm.lineNumbers[k2 := m])
  {
    var pm := PartlyRevalued(tm, t, changes, m);
    var pn := PartlyRevalued(VarTable(tm.values[k2 := v], tm.lineNumbers[k2 := m]), t, changes, m + 1);
    var q := VarTable(pm.values[k2 := changes[k2]], pm.lineNumbers[k2 := m]);
    assert forall k :: k in pn.values ==> pn.values[k] == q.values[k];
  }

  lemma ReparseUntargeted(tm: VarTable, t: VarTable, changes: map<string, string>, m: nat, k2: string, v: string)
    requires k2 in t.lineNumbers && t.lineNumbers[k2] >= m
    requires !Targeted(t, changes, m)
    requires forall k :: k in t.lineNumbers && t.lineNumbers[k] == m ==> k == k2
    ensures var pm := PartlyRevalued(tm, t, changes, m);
      PartlyRevalued(VarTable(tm.values[k2 := v], tm.lineNumbers[k2 := m]), t, changes, m + 1)
        == VarTable(pm.values[k2 := v], pm.lineNumbers[k2 := m])
  {
    var pm := PartlyRevalued(tm, t, changes, m);
    var pn := PartlyRevalued(VarTable(tm.values[k2 := v], tm.lineNumbers[k2 := m]), t, changes, m + 1);
    var q := VarTable(pm.values[k2 := v], pm.lineNumbers[k2 := m]);
    assert k2 in changes ==> t.lineNumbers[k2] != m;
    assert forall k :: k in pn.values ==> pn.values[k] == q.values[k];
  }

  lemma {:induction false} ReparsePrefix(ks: seq<LineKind>, t: VarTable, changes: map<string, string>, n: nat)
    requires ParseKinds(ks) == Ok(t) && RecordsLast(ks, t) && n <= |ks|
    ensures ParseKinds(ks[..n]).Ok?
    ensures ParseKinds(EditedKinds(ks, t, changes)[..n]) == Ok(PartlyRevalued(ParseKinds(ks[..n]).value, t, changes, n))
  {
    var e := EditedKinds(ks, t, changes);
    if n == 0 {
      assert ks[..0] == [] && e[..0] == [];
    } else {
      var m := n - 1;
      ReparsePrefix(ks, t, changes, m);
      if ParseKinds(ks[..n]).Err? {
        ParseErrorPersists(ks, n);
        assert false;
      }
      assert ks[..n][..m] == ks[..m] && ks[..n][m] == ks[m];
      assert e[..n][..m] == e[..m] && e[..n][m] == e[m];
      var tm := ParseKinds(ks[..m]).value;
      assert ks[m] != Malformed;
      ReparseStep(ks, t, changes, m, tm);
    }
  }

  /** Re-parsing the rewritten lines records the new value of every changed
      name at the same line, and leaves every other entry as it was. */
  lemma ReparseEditedKinds(ks: seq<LineKind>, changes: map<string, string>)
    requires ParseKinds(ks).Ok?
    ensures ParseKinds(EditedKinds(ks, ParseKinds(ks).value, changes)) == Ok(Revalued(ParseKinds(ks).value, changes))
  {
    var t := ParseKinds(ks).value;
    ParseKindsRecordsLast(ks);
    ReparsePrefix(ks, t, changes, |ks|);
    assert ks[..|ks|] == ks;
    var e := EditedKinds(ks, t, changes);
    assert e[..|e|] == e;
    FullyRevalued(t, changes, |ks|);
  }

  lemma FullyRevalued(t: VarTable, changes: map<string, string>, n: nat)
    requires t.values.Keys == t.lineNumbers.Keys
    requires forall k :: k in t.lineNumbers ==> t.lineNumbers[k] < n
    ensures PartlyRevalued(t, t, changes, n) == Revalued(t, changes)
  {
    var p := PartlyRevalued(t, t, changes, n);
    var r := Revalued(t, changes);
    assert p.values.Keys == r.values.Keys;
    assert forall k :: k in p.values ==> p.values[k] == r.values[k];
  }

  /** The parser's view of the rewritten lines is the rewritten view. */
  lemma KindsOfEdited(lines: seq<string>, t: VarTable, changes: map<string, string>)
    requires WellFormed(t)
    requires forall k :: k in changes && k in t.lineNumbers ==> IsWord(k) && IsFreeValue(changes[k])
    ensures Kinds(Edited(lines, t, changes)) == EditedKinds(Kinds(lines), t, changes)
  {
    var e := Edited(lines, t, changes);
    var ek := EditedKinds(Kinds(lines), t, changes);
    forall i | 0 <= i < |lines|
      ensures Classify(e[i]) == ek[i]
    {
      if Targeted(t, changes, i) {
        var k :| k in changes && k in t.lineNumbers && t.lineNumbers[k] == i;
        assert e[i] == DeclarationLine(k, changes[k]);
        assert ek[i] == FreeDecl(k, changes[k]);
        ClassifyDeclarationLine(k, changes[k]);
      }
    }
  }

  /** Every recorded name is a single word, as `split()` produced it. */
  lemma ParsedNamesAreWords(lines: seq<string>)
    requires ParseLines(lines).Ok?
    ensures forall k :: k in ParseLines(lines).value.lineNumbers ==> IsWord(k)
  {
    var ks := Kinds(lines);
    var t := ParseLines(lines).value;
    ParseKindsRecordsLast(ks);
    forall k | k in t.lineNumbers
      ensures IsWord(k)
    {
      var line := lines[t.lineNumbers[k]];
      assert Classify(line) == ks[t.lineNumbers[k]];
      ClassifiedNameIsWord(line);
    }
  }

  /** Editing an in-file and parsing it again records the new values, at the
      same lines, and keeps every other recorded variable: `edit_variables`
      and `__parse_variables` agree. */
  lemma EditThenParse(lines: seq<string>, changes: map<string, string>)
    requires ParseLines(lines).Ok?
    requires forall k :: k in changes && k in ParseLines(lines).value.values ==> IsFreeValue(changes[k])
    ensures ParseLines(Edited(lines, ParseLines(lines).value, changes)) == Ok(Revalued(ParseLines(lines).value, changes))
  {
    var t := ParseLines(lines).value;
    ParsedTableWellFormed(lines);
    ParsedNamesAreWords(lines);
    KindsOfEdited(lines, t, changes);
    ReparseEditedKinds(Kinds(lines), changes);
  }

  /** A LAMMPS in-file and the free variables parsed from it. The table is
      filled once, when the file is opened; editing rewrites the file only. */
  class InFile {
    const path: Path
    const name: string
    var freeVariables: map<string, string>
    var freeVariableLineNumbers: map<string, nat>

    function Table(): VarTable
      reads this
    {
      VarTable(freeVariables, freeVariableLineNumbers)
    }

    /** The fields `__init__` sets before parsing. */
    constructor (path: Path)
      ensures this.path == path && name == Basename(path)
      ensures Table() == VarTable(map[], map[])
    {
      this.path := path;
      name := Basename(path);
      freeVariables := map[];
      freeVariableLineNumbers := map[];
    }

    /** `__parse_variables`: reads the file and records every free variable. */
    method ParseVariables(fs: FileSystem) returns (r: Outcome<InFileError>)
      requires Table() == VarTable(map[], map[])
      modifies this
      ensures path !in fs.files ==> r == Fail(Io(if path in fs.dirs then IsADirectory(path) else NotFound(path)))
      ensures path in fs.files ==>
        match ParseLines(fs.files[path])
        case Ok(t) => r == Pass && Table() == t
        case Err(e) => r == Fail(e)
    {
      var read := fs.ReadLines(path);
      if read.Err? {
        return Fail(Io(read.error));
      }
      var lines := read.value;
      var ks := Kinds(lines);
      assert ParseLines(fs.files[path]) == ParseKinds(ks);
      var i := 0;
      while i < |lines|
        invariant 0 <= i <= |lines|
        invariant ParseKinds(ks[..i]) == Ok(Table())
      {
        ParsePrefixStep(ks, i);
        var line := lines[i];
        assert ks[i] == Classify(line);
        if IsVariableLine(line) {
          var fields := Fields(line);
          if |fields| < 4 {
            assert ParseKinds(ks[..i + 1]) == Err(TooFewFields(i));
            ParseErrorPersists(ks, i + 1);
            return Fail(TooFewFields(i));
          }
          if IsFreeValue(fields[3]) {
            assert ks[i] == FreeDecl(fields[1], fields[3]);
            freeVariables := freeVariables[fields[1] := fields[3]];
            freeVariableLineNumbers := freeVariableLineNumbers[fields[1] := i];
          }
        }
        i := i + 1;
      }
      assert ks[..i] == ks;
      r := Pass;
    }

    /** `edit_variables(changes)`: rewrites the recorded line of every changed
        name of the table, reports the names it skipped, and writes the file
        back; a recorded line past the end of the file aborts before writing. */
    method EditVariables(fs: FileSystem, changes: map<string, string>) returns (skipped: set<string>, r: Outcome<InFileError>)
      requires fs.Valid() && WellFormed(Table())
      modifies fs
      ensures fs.Valid() && fs.dirs == old(fs.dirs)
      ensures skipped == changes.Keys - freeVariables.Keys
      ensures path !in old(fs.files) ==>
        && r == Fail(Io(if path in old(fs.dirs) then IsADirectory(path) else NotFound(path)))
        && fs.files == old(fs.files)
      ensures path in old(fs.files) ==>
        var lines := old(fs.files)[path];
        && (r.Pass? <==> forall k :: k in changes && k in freeVariableLineNumbers ==> freeVariableLineNumbers[k] < |lines|)
        && (r.Pass? ==> fs.files == old(fs.files)[path := Edited(lines, Table(), changes)])
        && (r.Fail? ==>
              && fs.files == old(fs.files)
              && exists k :: k in changes && k in freeVariableLineNumbers && freeVariableLineNumbers[k] >= |lines|
                             && r.error == LineMissing(k, freeVariableLineNumbers[k]))
    {
      skipped := changes.Keys - freeVariables.Keys;
      var read := fs.ReadLines(path);
      if read.Err? {
        return skipped, Fail(Io(read.error));
      }
      var lines := read.value;
      ghost var original := lines;
      var todo := changes.Keys;
      while todo != {}
        invariant fs.Valid() && fs.files == old(fs.files) && fs.dirs == old(fs.dirs)
        invariant todo <= changes.Keys
        invariant lines == Edited(original, Table(), changes - todo)
        invariant forall k :: k in changes && k !in todo && k in freeVariableLineNumbers ==>
          freeVariableLineNumbers[k] < |original|
        decreases todo
      {
        var k :| k in todo;
        assert changes - (todo - {k}) == (changes - todo)[k := changes[k]];
        if k in freeVariables {
          var idx := freeVariableLineNumbers[k];
          if idx >= |lines| {
            return skipped, Fail(LineMissing(k, idx));
          }
          EditOneMore(original, Table(), changes - todo, k, changes[k]);
          lines := lines[idx := DeclarationLine(k, changes[k])];
        } else {
          EditUnknownName(original, Table(), changes - todo, k, changes[k]);
        }
        todo := todo - {k};
      }
      assert changes - todo == changes;
      assert path != [] && Parent(path) == path[..|path| - 1];
      var written := fs.WriteLines(path, lines);
      assert written.Pass?;
      r := Pass;
    }
  }

  /** `InFile(path)`: opens and parses an in-file. */
  method Open(fs: FileSystem, path: Path) returns (r: Result<InFile, InFileError>)
    ensures r.Ok? ==>
      && fresh(r.value) && r.value.path == path && r.value.name == Basename(path)
      && path in fs.files && ParseLines(fs.files[path]) == Ok(r.value.Table())
      && WellFormed(r.value.Table())
    ensures path !in fs.files ==> r == Err(Io(if path in fs.dirs then IsADirectory(path) else NotFound(path)))
    ensures path in fs.files && ParseLines(fs.files[path]).Ok? ==> r.Ok?
    ensures path in fs.files && ParseLines(fs.files[path]).Err? ==> r == Err(ParseLines(fs.files[path]).error)
  {
    var f := new InFile(path);
    var outcome := f.ParseVariables(fs);
    if outcome.Fail? {
      return Err(outcome.error);
    }
    ParsedTableWellFormed(fs.files[path]);
    r := Ok(f);
  }
}
