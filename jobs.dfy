/** One job of a project (myscripts/src/LAMMPS_Job.py): a folder under the
    project's folder with one sub-folder per seed, each holding a copy of the
    project's in-file edited to the job's variables and to a random value per
    seed variable, and the LAMMPS command that runs one seed. */
module Jobs {
  import opened Results
  import opened Text
  import opened Seqs
  import opened FileSystems
  import opened InFiles

  datatype JobError =
    | FolderExists(path: Path)                // RuntimeError: the job folder is already there
    | FsFailed(fsError: FsError)                    // raised by `os` or `shutil`
    | InFileFailed(inFileError: InFileError)  // raised while reading or editing the copied in-file
    | SeedVariableMissing(name: string)       // RuntimeError: a seed variable is no job variable

  /** `np.random.randint(1000, 1000000)` draws from `DrawLow <= d < DrawHigh`. */
  const DrawLow: nat := 1000
  const DrawHigh: nat := 1000000

  predicate InDrawRange(d: nat)
  {
    DrawLow <= d < DrawHigh
  }

  /** One draw per seed and seed variable, each inside the range. */
  predicate Draws(draws: seq<seq<nat>>, nSeeds: nat, nVariables: nat)
  {
    && |draws| == nSeeds
    && forall i :: 0 <= i < nSeeds ==>
         |draws[i]| == nVariables && forall j :: 0 <= j < nVariables ==> InDrawRange(draws[i][j])
  }

  /** `f"seed{i}"`. */
  function SeedDir(i: nat): string
  {
    "seed" + NatToString(i)
  }

  /** The folder of seed `i` in the job folder `outpath`. */
  function SeedPath(outpath: Path, i: nat): (r: Path)
    ensures r == outpath + [SeedDir(i)]
  {
    Child(outpath, SeedDir(i))
  }

  /** The job's in-file name: the project's in-file name, `_`, the job name. */
  function InFileName(parentInfile: Path, name: string): (r: string)
    ensures |r| > |Basename(parentInfile)|
  {
    Basename(parentInfile) + "_" + name
  }

  /** Where seed `i` keeps the job's in-file. */
  function SeedInFile(outpath: Path, i: nat, inFileName: string): (r: Path)
    ensures inFileName != "" ==> r == outpath + [SeedDir(i), inFileName]
  {
    Child(SeedPath(outpath, i), inFileName)
  }

  /** `f"{lammps_env_var} -in {infile_path} -screen none"`. */
  function Command(lammpsCmd: string, inPath: Path): string
  {
    lammpsCmd + " -in " + Render(inPath) + " -screen none"
  }

  /** The shell receives the words of the LAMMPS command, then `-in`, the
      in-file, `-screen` and `none`. */
  lemma CommandWords(cmdWords: seq<string>, inPath: Path)
    requires |cmdWords| > 0 && forall i :: 0 <= i < |cmdWords| ==> IsWord(cmdWords[i])
    requires IsWord(Render(inPath))
    ensures SplitWs(Command(Join(cmdWords, " "), inPath)) == cmdWords + ["-in", Render(inPath), "-screen", "none"]
  {
    var tail := ["-in", Render(inPath), "-screen", "none"];
    assert Command(Join(cmdWords, " "), inPath) == Join(cmdWords + tail, " ") by {
      CommandTail(Join(cmdWords, " "), Render(inPath));
      JoinAppend(cmdWords, tail, " ");
    }
    FlagWords(Render(inPath));
    WordsAppend(cmdWords, tail);
    SplitJoin(cmdWords + tail);
  }

  lemma CommandTail(cmd: string, path: string)
    ensures cmd + " -in " + path + " -screen none" == cmd + " " + Join(["-in", path, "-screen", "none"], " ")
  {
    var tail := ["-in", path, "-screen", "none"];
    assert Join(tail[3..], " ") == "none";
    assert Join(tail[2..], " ") == "-screen none";
    assert Join(tail[1..], " ") == path + " -screen none";
    assert Join(tail, " ") == "-in " + path + " -screen none";
    assert " -in " == " " + "-in ";
  }

  lemma FlagWords(path: string)
    requires IsWord(path)
    ensures var tail := ["-in", path, "-screen", "none"];
      forall i :: 0 <= i < |tail| ==> IsWord(tail[i])
  {
    assert IsWord("-in") && IsWord("-screen") && IsWord("none");
  }

  // ---------------------------------------------------------------------
  // Seed folders

  /** `q` is `p` or lies below it. */
  predicate Within(q: Path, p: Path)
  {
    |p| <= |q| && q[..|p|] == p
  }

  /** Nothing exists at or below `p`. */
  ghost predicate Vacant(dirs: set<Path>, files: map<Path, seq<string>>, p: Path)
  {
    forall q :: Within(q, p) ==> q !in dirs && q !in files
  }

  ghost function SeedDirs(outpath: Path, n: nat): set<Path>
  {
    if n == 0 then {} else SeedDirs(outpath, n - 1) + {SeedPath(outpath, n - 1)}
  }

  lemma {:induction false} SeedDirsMember(outpath: Path, n: nat, d: Path)
    ensures d in SeedDirs(outpath, n) <==> exists i :: 0 <= i < n && d == SeedPath(outpath, i)
  {
    if n > 0 {
      SeedDirsMember(outpath, n - 1, d);
      if d == SeedPath(outpath, n - 1) {
        assert 0 <= n - 1 < n && d == SeedPath(outpath, n - 1);
      }
    }
  }

  /** Every directory that `os.makedirs` of the `n` seed folders needs: the
      seed folders and everything above them. */
  ghost function SeedTree(outpath: Path, n: nat): set<Path>
  {
    if n == 0 then {} else Prefixes(outpath) + SeedDirs(outpath, n)
  }

  /** A file stands where a directory above `p` is needed. */
  ghost predicate Blocked(files: map<Path, seq<string>>, p: Path)
  {
    exists k :: 0 <= k < |p| && p[..k] in files
  }

  lemma VacantMissing(fs: FileSystem, p: Path)
    requires fs.Valid() && !fs.Exists(p)
    ensures Vacant(fs.dirs, fs.files, p)
  {
    forall q | Within(q, p)
      ensures q !in fs.dirs && q !in fs.files
    {
      fs.NothingBelowMissing(p, q);
    }
  }

  lemma SeedDirInjective(i: nat, j: nat)
    requires SeedDir(i) == SeedDir(j)
    ensures i == j
  {
    assert NatToString(i) == SeedDir(i)[4..];
    assert NatToString(j) == SeedDir(j)[4..];
    NatToStringInjective(i, j);
  }

  /** Seed `n` adds its own folder; everything above it is already needed by
      seed 0. */
  lemma SeedTreeStep(outpath: Path, n: nat)
    ensures SeedTree(outpath, n + 1) == SeedTree(outpath, n) + Prefixes(SeedPath(outpath, n))
  {
    var p := SeedPath(outpath, n);
    assert Prefixes(p) == Prefixes(outpath) + {p} by {
      forall q | q in Prefixes(p)
        ensures q in Prefixes(outpath) + {p}
      {
        var k :| 0 <= k <= |p| && q == p[..k];
        if k < |p| {
          assert q == outpath[..k];
        } else {
          assert q == p;
        }
      }
      forall q | q in Prefixes(outpath) + {p}
        ensures q in Prefixes(p)
      {
        if q == p {
          assert p[..|p|] == p;
        } else {
          var k :| 0 <= k <= |outpath| && q == outpath[..k];
          assert q == p[..k];
        }
      }
    }
  }

  lemma {:induction false} SeedDirsCount(outpath: Path, n: nat)
    ensures |SeedDirs(outpath, n)| == n
  {
    if n > 0 {
      SeedDirsCount(outpath, n - 1);
      SeedPathNew(outpath, n - 1);
    }
  }

  /** Below the job folder, the directories `os.makedirs` adds are exactly
      the seed folders. */
  lemma SeedTreeBelow(outpath: Path, n: nat, d: Path)
    requires Within(d, outpath) && d != outpath
    ensures d in SeedTree(outpath, n) <==> exists i :: 0 <= i < n && d == SeedPath(outpath, i)
  {
    SeedDirsMember(outpath, n, d);
  }

  /** Seed folder `i` is not there yet when the first `i` have been made. */
  lemma SeedPathFresh(dirs: set<Path>, files: map<Path, seq<string>>, outpath: Path, i: nat)
    requires Vacant(dirs, files, outpath)
    ensures SeedPath(outpath, i) !in dirs + SeedTree(outpath, i) && SeedPath(outpath, i) !in files
  {
    assert Within(SeedPath(outpath, i), outpath);
    SeedPathNew(outpath, i);
  }

  /** Seed `i` has a folder of its own. */
  lemma SeedPathNew(outpath: Path, i: nat)
    ensures SeedPath(outpath, i) !in SeedDirs(outpath, i)
  {
    var p := SeedPath(outpath, i);
    SeedDirsMember(outpath, i, p);
    if p in SeedDirs(outpath, i) {
      var j :| 0 <= j < i && SeedPath(outpath, j) == p;
      assert SeedPath(outpath, j)[|outpath|] == p[|outpath|];
      SeedDirInjective(i, j);
    }
  }

  /** For a seed folder, `os.makedirs` meets a file above it exactly when one
      stands above the job folder. */
  lemma SeedPathBlocked(files: map<Path, seq<string>>, outpath: Path, i: nat)
    requires outpath !in files
    ensures (exists k :: 0 <= k < |SeedPath(outpath, i)| && SeedPath(outpath, i)[..k] in files) <==> Blocked(files, outpath)
  {
    var p := SeedPath(outpath, i);
    if exists k :: 0 <= k < |p| && p[..k] in files {
      var k :| 0 <= k < |p| && p[..k] in files;
      assert p[..k] == outpath[..k];
    }
    if Blocked(files, outpath) {
      var k :| 0 <= k < |outpath| && outpath[..k] in files;
      assert p[..k] == outpath[..k];
    }
  }

  /** `__create_output_file_structure` once the job folder is known to be
      new: `os.makedirs` of each seed folder in turn. */
  method CreateSeedDirs(fs: FileSystem, outpath: Path, nSeeds: nat) returns (r: Outcome<JobError>)
    requires fs.Valid() && !fs.Exists(outpath)
    modifies fs
    ensures fs.Valid() && fs.files == old(fs.files)
    ensures r == (if nSeeds > 0 && Blocked(old(fs.files), outpath)
                  then Fail(FsFailed(NotADirectory(SeedPath(outpath, 0)))) else Pass)
    ensures fs.dirs == if r.Pass? then old(fs.dirs) + SeedTree(outpath, nSeeds) else old(fs.dirs)
  {
    VacantMissing(fs, outpath);
    var i := 0;
    while i < nSeeds
      invariant 0 <= i <= nSeeds
      invariant fs.Valid() && fs.files == old(fs.files)
      invariant Vacant(old(fs.dirs), old(fs.files), outpath)
      invariant fs.dirs == old(fs.dirs) + SeedTree(outpath, i)
      invariant i > 0 ==> !Blocked(fs.files, outpath)
    {
      SeedPathFresh(old(fs.dirs), old(fs.files), outpath, i);
      assert outpath !in fs.files by {
        assert Within(outpath, outpath);
      }
      SeedPathBlocked(fs.files, outpath, i);
      var made := fs.Makedirs(SeedPath(outpath, i));
      if made.Fail? {
        return Fail(FsFailed(made.error));
      }
      SeedTreeStep(outpath, i);
      i := i + 1;
    }
    r := Pass;
  }

  // ---------------------------------------------------------------------
  // In-files

  /** Position of the first seed variable that is no job variable, or `|svs|`. */
  function FirstMissing(svs: seq<string>, vars: map<string, string>): (m: nat)
    ensures m <= |svs|
    ensures forall j :: 0 <= j < m ==> svs[j] in vars
    ensures m < |svs| ==> svs[m] !in vars
  {
    if svs == [] || svs[0] !in vars then 0 else 1 + FirstMissing(svs[1..], vars)
  }

  /** The seed-variable check: without variables nothing is checked. */
  function SeedCheck(variables: Option<map<string, string>>, svs: seq<string>): (r: Outcome<JobError>)
    ensures r.Fail? <==> variables.Some? && exists sv :: sv in svs && sv !in variables.value
  {
    if variables.Some? && FirstMissing(svs, variables.value) < |svs|
    then Fail(SeedVariableMissing(svs[FirstMissing(svs, variables.value)]))
    else Pass
  }

  /** The in-file after `edit_variables({svs[j]: draws[j]})` for each `j` in
      order. */
  ghost function SeedEdits(lines: seq<string>, t: VarTable, svs: seq<string>, draws: seq<nat>): (r: seq<string>)
    requires |svs| <= |draws|
    ensures |r| == |lines|
    decreases |svs|
  {
    if svs == [] then lines
    else
      var n := |svs| - 1;
      Edited(SeedEdits(lines, t, svs[..n], draws), t, map[svs[n] := NatToString(draws[n])])
  }

  /** The in-file a seed ends up with: the copy unchanged when there are no
      variables; otherwise edited to the variables, then to one draw per seed
      variable, up to the first seed variable that is no job variable. */
  ghost function SeededLines(lines: seq<string>, t: VarTable, variables: Option<map<string, string>>,
                             svs: seq<string>, draws: seq<nat>): seq<string>
    requires |svs| <= |draws|
  {
    match variables
    case None => lines
    case Some(vars) => SeedEdits(Edited(lines, t, vars), t, svs[..FirstMissing(svs, vars)], draws)
  }

  /** After the seed edits, the line of a seed variable of the table declares
      the draw of the variable's last occurrence. */
  lemma {:induction false} SeedEditsLine(lines: seq<string>, t: VarTable, svs: seq<string>, draws: seq<nat>, sv: string)
    requires WellFormed(t) && |svs| <= |draws|
    requires sv in svs && sv in t.lineNumbers && t.lineNumbers[sv] < |lines|
    ensures SeedEdits(lines, t, svs, draws)[t.lineNumbers[sv]] == DeclarationLine(sv, NatToString(draws[LastIndexOf(svs, sv)]))
  {
    var n := |svs| - 1;
    var last := svs[n];
    var prev := SeedEdits(lines, t, svs[..n], draws);
    EditedLines(prev, t, map[last := NatToString(draws[n])]);
    if last != sv {
      assert sv in svs[..n];
      assert !Targeted(t, map[last := NatToString(draws[n])], t.lineNumbers[sv]);
      SeedEditsLine(lines, t, svs[..n], draws, sv);
    }
  }

  /** A line that no seed variable owns is left as it was. */
  lemma {:induction false} SeedEditsKeep(lines: seq<string>, t: VarTable, svs: seq<string>, draws: seq<nat>, i: nat)
    requires WellFormed(t) && |svs| <= |draws| && i < |lines|
    requires forall sv :: sv in svs && sv in t.lineNumbers ==> t.lineNumbers[sv] != i
    ensures SeedEdits(lines, t, svs, draws)[i] == lines[i]
  {
    if svs != [] {
      var n := |svs| - 1;
      var prev := SeedEdits(lines, t, svs[..n], draws);
      EditedLines(prev, t, map[svs[n] := NatToString(draws[n])]);
      SeedEditsKeep(lines, t, svs[..n], draws, i);
    }
  }

  /** The loop over `seed_variables` of `__create_in_files`: each seed
      variable that is a job variable gets its draw written into the file;
      the first that is not raises. */
  method EditSeedVariables(fs: FileSystem, inFile: InFile, vars: map<string, string>, svs: seq<string>, draws: seq<nat>)
    returns (r: Outcome<JobError>)
    requires fs.Valid() && WellFormed(inFile.Table()) && inFile.path in fs.files
    requires forall k :: k in inFile.freeVariableLineNumbers ==> inFile.freeVariableLineNumbers[k] < |fs.files[inFile.path]|
    requires |svs| <= |draws|
    modifies fs
    ensures fs.Valid() && fs.dirs == old(fs.dirs)
    ensures var m := FirstMissing(svs, vars);
      && r == (if m < |svs| then Fail(SeedVariableMissing(svs[m])) else Pass)
      && fs.files == old(fs.files)[inFile.path := SeedEdits(old(fs.files)[inFile.path], inFile.Table(), svs[..m], draws)]
  {
    ghost var lines := fs.files[inFile.path];
    var i := 0;
    while i < |svs|
      invariant 0 <= i <= |svs| && i <= FirstMissing(svs, vars)
      invariant fs.Valid() && fs.dirs == old(fs.dirs) && inFile.path in fs.files
      invariant fs.files == old(fs.files)[inFile.path := SeedEdits(lines, inFile.Table(), svs[..i], draws)]
    {
      var sv := svs[i];
      if sv !in vars {
        return Fail(SeedVariableMissing(sv));
      }
      assert svs[..i + 1][..i] == svs[..i];
      var _, edited := inFile.EditVariables(fs, map[sv := NatToString(draws[i])]);
      if edited.Fail? {
        assert false;
      }
      i := i + 1;
    }
    assert svs[..i] == svs[..FirstMissing(svs, vars)];
    r := Pass;
  }

  /** `shutil.copy2` of the project's in-file into the seed folder, then
      `os.rename` of the copy to the job's in-file name. */
  method PlaceInFile(fs: FileSystem, parentInfile: Path, seedOut: Path, inPath: Path) returns (r: Outcome<JobError>)
    requires fs.Valid() && seedOut in fs.dirs && inPath != [] && Parent(inPath) == seedOut
    requires inPath != Child(seedOut, Basename(parentInfile))
    modifies fs
    ensures fs.Valid() && fs.dirs == old(fs.dirs)
    ensures
      var target := Child(seedOut, Basename(parentInfile));
      if parentInfile in old(fs.dirs) then r == Fail(FsFailed(IsADirectory(parentInfile))) && fs.files == old(fs.files)
      else if parentInfile !in old(fs.files) then r == Fail(FsFailed(NotFound(parentInfile))) && fs.files == old(fs.files)
      else if target in old(fs.dirs) then r == Fail(FsFailed(IsADirectory(target))) && fs.files == old(fs.files)
      else if inPath in old(fs.dirs) then r == Fail(FsFailed(IsADirectory(inPath))) && fs.files == old(fs.files)[target := old(fs.files)[parentInfile]]
      else r == Pass && fs.files == (old(fs.files) - {target})[inPath := old(fs.files)[parentInfile]]
  {
    var copied := fs.Copy(parentInfile, seedOut);
    if copied.Err? {
      return Fail(FsFailed(copied.error));
    }
    var moved := fs.Rename(Child(seedOut, Basename(parentInfile)), inPath);
    if moved.Fail? {
      return Fail(FsFailed(moved.error));
    }
    r := Pass;
  }

  /** `InFile(in_file_path)` on the copy, then, with variables, the edit to
      the variables and the seed-variable loop. */
  method PrepareInFile(fs: FileSystem, inPath: Path, variables: Option<map<string, string>>, svs: seq<string>, draws: seq<nat>)
    returns (r: Outcome<JobError>)
    requires fs.Valid() && inPath in fs.files && |svs| <= |draws|
    modifies fs
    ensures fs.Valid() && fs.dirs == old(fs.dirs)
    ensures
      var lines := old(fs.files)[inPath];
      match ParseLines(lines)
      case Err(e) => r == Fail(InFileFailed(e)) && fs.files == old(fs.files)
      case Ok(t) => r == SeedCheck(variables, svs) && fs.files == old(fs.files)[inPath := SeededLines(lines, t, variables, svs, draws)]
  {
    var parsed := Open(fs, inPath);
    if parsed.Err? {
      return Fail(InFileFailed(parsed.error));
    }
    var inFile := parsed.value;
    if variables.None? {
      return Pass;
    }
    ParsedTableWellFormed(fs.files[inPath]);
    var _, edited := inFile.EditVariables(fs, variables.value);
    if edited.Fail? {
      assert false;
    }
    r := EditSeedVariables(fs, inFile, variables.value, svs, draws);
  }

  /** One pass of the loop of `__create_in_files`: unless the seed folder
      already holds the job's in-file, copy the project's in-file into it,
      rename the copy, parse it, and edit it to the variables and the seed
      draws. */
  method CreateSeedInFile(fs: FileSystem, parentInfile: Path, seedOut: Path, inFileName: string,
                          variables: Option<map<string, string>>, svs: seq<string>, draws: seq<nat>)
    returns (r: Outcome<JobError>)
    requires fs.Valid() && seedOut in fs.dirs
    requires inFileName != "" && inFileName != Basename(parentInfile)
    requires |svs| <= |draws|
    modifies fs
    ensures fs.Valid() && fs.dirs == old(fs.dirs)
    ensures
      var target := Child(seedOut, Basename(parentInfile));
      var inPath := Child(seedOut, inFileName);
      if inPath in old(fs.files) then r == Pass && fs.files == old(fs.files)
      else if parentInfile in old(fs.dirs) then r == Fail(FsFailed(IsADirectory(parentInfile))) && fs.files == old(fs.files)
      else if parentInfile !in old(fs.files) then r == Fail(FsFailed(NotFound(parentInfile))) && fs.files == old(fs.files)
      else if target in old(fs.dirs) then r == Fail(FsFailed(IsADirectory(target))) && fs.files == old(fs.files)
      else
        var lines := old(fs.files)[parentInfile];
        if inPath in old(fs.dirs) then r == Fail(FsFailed(IsADirectory(inPath))) && fs.files == old(fs.files)[target := lines]
        else
          var moved := (old(fs.files) - {target})[inPath := lines];
          match ParseLines(lines)
          case Err(e) => r == Fail(InFileFailed(e)) && fs.files == moved
          case Ok(t) => r == SeedCheck(variables, svs) && fs.files == moved[inPath := SeededLines(lines, t, variables, svs, draws)]
  {
    var inPath := Child(seedOut, inFileName);
    if inPath in fs.files {
      return Pass;
    }
    r := PlaceInFile(fs, parentInfile, seedOut, inPath);
    if r.Fail? {
      return;
    }
    r := PrepareInFile(fs, inPath, variables, svs, draws);
  }

  // ---------------------------------------------------------------------
  // The whole job

  /** The job folder right after `os.makedirs`: no file below it, no folder
      deeper than a seed folder, and every seed folder there. */
  ghost predicate FreshTree(dirs: set<Path>, files: map<Path, seq<string>>, outpath: Path, n: nat)
  {
    && (forall q :: Within(q, outpath) ==> q !in files)
    && (forall q :: Within(q, outpath) && q in dirs ==> |q| <= |outpath| + 1)
    && (forall i :: 0 <= i < n ==> SeedPath(outpath, i) in dirs)
  }

  lemma FreshTreeMade(dirs: set<Path>, files: map<Path, seq<string>>, outpath: Path, n: nat)
    requires Vacant(dirs, files, outpath)
    ensures FreshTree(dirs + SeedTree(outpath, n), files, outpath, n)
  {
    forall i | 0 <= i < n
      ensures SeedPath(outpath, i) in SeedTree(outpath, n)
    {
      SeedDirsMember(outpath, n, SeedPath(outpath, i));
    }
    forall q | Within(q, outpath) && q in SeedTree(outpath, n)
      ensures |q| <= |outpath| + 1
    {
      if q in Prefixes(outpath) {
        var k :| 0 <= k <= |outpath| && q == outpath[..k];
      } else {
        SeedDirsMember(outpath, n, q);
        var i :| 0 <= i < n && q == SeedPath(outpath, i);
      }
    }
  }

  /** The in-file each seed ends up with, seed `i` using draws `draws[i]`. */
  ghost function SeedContents(lines: seq<string>, t: VarTable, variables: Option<map<string, string>>,
                              svs: seq<string>, draws: seq<seq<nat>>): (r: seq<seq<string>>)
    requires forall i :: 0 <= i < |draws| ==> |svs| <= |draws[i]|
    ensures |r| == |draws| && forall i :: 0 <= i < |draws| ==> r[i] == SeededLines(lines, t, variables, svs, draws[i])
  {
    seq(|draws|, i requires 0 <= i < |draws| => SeededLines(lines, t, variables, svs, draws[i]))
  }

  /** The in-file each seed ends up with when the parent in-file is the one
      `files` holds at `parentInfile` (nothing is written otherwise). */
  ghost function ParentContents(files: map<Path, seq<string>>, parentInfile: Path,
                                variables: Option<map<string, string>>, svs: seq<string>,
                                draws: seq<seq<nat>>): (r: seq<seq<string>>)
    requires forall i :: 0 <= i < |draws| ==> |svs| <= |draws[i]|
    ensures |r| == |draws|
  {
    if parentInfile in files && ParseLines(files[parentInfile]).Ok?
    then SeedContents(files[parentInfile], ParseLines(files[parentInfile]).value, variables, svs, draws)
    else SeedContents([], VarTable(map[], map[]), variables, svs, draws)
  }

  /** `files` with `keys[i]` set to `contents[i]` for each `i < n`, in order. */
  ghost function Filled(files: map<Path, seq<string>>, keys: seq<Path>, contents: seq<seq<string>>, n: nat)
    : map<Path, seq<string>>
    requires n <= |keys| && n <= |contents|
  {
    if n == 0 then files else Filled(files, keys, contents, n - 1)[keys[n - 1] := contents[n - 1]]
  }

  /** A key written and not written again keeps what was written. */
  lemma {:induction false} FilledAt(files: map<Path, seq<string>>, keys: seq<Path>, contents: seq<seq<string>>,
                                    n: nat, i: nat)
    requires n <= |keys| && n <= |contents| && i < n
    requires forall j :: i < j < n ==> keys[j] != keys[i]
    ensures var m := Filled(files, keys, contents, n);
      keys[i] in m && m[keys[i]] == contents[i]
  {
    if i < n - 1 {
      FilledAt(files, keys, contents, n - 1, i);
    }
  }

  /** A path that is no key is as before. */
  lemma {:induction false} FilledElsewhere(files: map<Path, seq<string>>, keys: seq<Path>, contents: seq<seq<string>>,
                                           n: nat, p: Path)
    requires n <= |keys| && n <= |contents|
    requires forall i :: 0 <= i < n ==> p != keys[i]
    ensures var m := Filled(files, keys, contents, n);
      (p in m <==> p in files) && (p in files ==> m[p] == files[p])
  {
    if n > 0 {
      FilledElsewhere(files, keys, contents, n - 1, p);
    }
  }

  /** The in-file paths of the first `n` seeds. */
  ghost function SeedInFiles(outpath: Path, inFileName: string, n: nat): (r: seq<Path>)
    ensures |r| == n && forall i :: 0 <= i < n ==> r[i] == SeedInFile(outpath, i, inFileName)
  {
    seq(n, i requires 0 <= i < n => SeedInFile(outpath, i, inFileName))
  }

  /** The files once the first `n` seeds hold their in-files, seed `i` the
      lines `contents[i]`. */
  ghost function JobFiles(files: map<Path, seq<string>>, outpath: Path, inFileName: string,
                          contents: seq<seq<string>>, n: nat): map<Path, seq<string>>
    requires n <= |contents|
  {
    Filled(files, SeedInFiles(outpath, inFileName, |contents|), contents, n)
  }

  lemma SeedInFileInjective(outpath: Path, i: nat, j: nat, inFileName: string)
    requires inFileName != "" && SeedInFile(outpath, i, inFileName) == SeedInFile(outpath, j, inFileName)
    ensures i == j
  {
    assert SeedInFile(outpath, i, inFileName)[|outpath|] == SeedInFile(outpath, j, inFileName)[|outpath|];
    SeedDirInjective(i, j);
  }

  /** Seed `i` holds its in-file. */
  lemma JobFilesAt(files: map<Path, seq<string>>, outpath: Path, inFileName: string,
                   contents: seq<seq<string>>, n: nat, i: nat)
    requires n <= |contents| && inFileName != "" && i < n
    ensures var m := JobFiles(files, outpath, inFileName, contents, n);
      SeedInFile(outpath, i, inFileName) in m && m[SeedInFile(outpath, i, inFileName)] == contents[i]
  {
    var keys := SeedInFiles(outpath, inFileName, |contents|);
    forall j | i < j < n
      ensures keys[j] != keys[i]
    {
      if keys[j] == keys[i] {
        SeedInFileInjective(outpath, i, j, inFileName);
      }
    }
    FilledAt(files, keys, contents, n, i);
  }

  /** Every other path is as before. */
  lemma JobFilesElsewhere(files: map<Path, seq<string>>, outpath: Path, inFileName: string,
                          contents: seq<seq<string>>, n: nat, p: Path)
    requires n <= |contents|
    requires forall i :: 0 <= i < n ==> p != SeedInFile(outpath, i, inFileName)
    ensures var m := JobFiles(files, outpath, inFileName, contents, n);
      (p in m <==> p in files) && (p in files ==> m[p] == files[p])
  {
    FilledElsewhere(files, SeedInFiles(outpath, inFileName, |contents|), contents, n, p);
  }

  /** One more seed holds its in-file. */
  lemma JobFilesStep(files: map<Path, seq<string>>, outpath: Path, inFileName: string,
                     contents: seq<seq<string>>, i: nat)
    requires i < |contents|
    ensures JobFiles(files, outpath, inFileName, contents, i + 1)
            == JobFiles(files, outpath, inFileName, contents, i)[SeedInFile(outpath, i, inFileName) := contents[i]]
  {
  }

  /** What the first seed meets, and every later seed meets too. */
  function InFileCheck(dirs: set<Path>, files: map<Path, seq<string>>, parentInfile: Path, seedOut: Path,
                       variables: Option<map<string, string>>, svs: seq<string>): Outcome<JobError>
  {
    if parentInfile in dirs then Fail(FsFailed(IsADirectory(parentInfile)))
    else if parentInfile !in files then Fail(FsFailed(NotFound(parentInfile)))
    else if Basename(parentInfile) == "" then Fail(FsFailed(IsADirectory(seedOut)))
    else match ParseLines(files[parentInfile])
      case Err(e) => Fail(InFileFailed(e))
      case Ok(_) => SeedCheck(variables, svs)
  }

  /** The slot of seed `i` is free while the first `i` seeds are done. */
  lemma SeedSlot(dirs: set<Path>, files: map<Path, seq<string>>, outpath: Path, inFileName: string, base: string,
                 contents: seq<seq<string>>, n: nat, i: nat)
    requires FreshTree(dirs, files, outpath, n) && i < n && |contents| == n
    requires inFileName != "" && inFileName != base
    ensures var m := JobFiles(files, outpath, inFileName, contents, i);
      var inPath := SeedInFile(outpath, i, inFileName);
      var target := Child(SeedPath(outpath, i), base);
      && SeedPath(outpath, i) in dirs
      && Within(inPath, outpath) && inPath !in m && inPath !in dirs
      && Within(target, outpath) && target !in m && (base != "" ==> target !in dirs)
  {
    var inPath := SeedInFile(outpath, i, inFileName);
    var target := Child(SeedPath(outpath, i), base);
    assert Within(inPath, outpath) && Within(target, outpath);
    forall j | 0 <= j < i
      ensures inPath != SeedInFile(outpath, j, inFileName) && target != SeedInFile(outpath, j, inFileName)
    {
      if inPath == SeedInFile(outpath, j, inFileName) {
        SeedInFileInjective(outpath, i, j, inFileName);
      }
    }
    JobFilesElsewhere(files, outpath, inFileName, contents, i, inPath);
    JobFilesElsewhere(files, outpath, inFileName, contents, i, target);
  }

  /** Paths outside the job folder are left alone. */
  ghost predicate SameOutside(before: map<Path, seq<string>>, after: map<Path, seq<string>>, outpath: Path)
  {
    forall p :: !Within(p, outpath) ==> (p in after <==> p in before) && (p in after ==> after[p] == before[p])
  }

  /** The loop of `__create_in_files` over all seeds of a new job folder. */
  method CreateInFiles(fs: FileSystem, outpath: Path, parentInfile: Path, inFileName: string, nSeeds: nat,
                       variables: Option<map<string, string>>, svs: seq<string>, draws: seq<seq<nat>>)
    returns (r: Outcome<JobError>)
    requires fs.Valid() && FreshTree(fs.dirs, fs.files, outpath, nSeeds) && nSeeds > 0
    requires inFileName != "" && |inFileName| > |Basename(parentInfile)|
    requires |draws| == nSeeds && forall i :: 0 <= i < nSeeds ==> |svs| <= |draws[i]|
    modifies fs
    ensures fs.Valid() && fs.dirs == old(fs.dirs)
    ensures r == InFileCheck(old(fs.dirs), old(fs.files), parentInfile, SeedPath(outpath, 0), variables, svs)
    ensures r.Pass? ==>
      fs.files == JobFiles(old(fs.files), outpath, inFileName, ParentContents(old(fs.files), parentInfile, variables, svs, draws), nSeeds)
    ensures r.Fail? ==> SameOutside(old(fs.files), fs.files, outpath)
  {
    ghost var files0 := fs.files;
    ghost var contents := ParentContents(files0, parentInfile, variables, svs, draws);
    var i := 0;
    while i < nSeeds
      invariant 0 <= i <= nSeeds && fs.Valid() && fs.dirs == old(fs.dirs)
      invariant i > 0 ==> InFileCheck(fs.dirs, files0, parentInfile, SeedPath(outpath, 0), variables, svs) == Pass
      invariant fs.files == JobFiles(files0, outpath, inFileName, contents, i)
    {
      SeedSlot(fs.dirs, files0, outpath, inFileName, Basename(parentInfile), contents, nSeeds, i);
      SlotCheck(fs.dirs, files0, outpath, parentInfile, inFileName, nSeeds, variables, svs, contents, i);
      r := FillSlot(fs, files0, outpath, parentInfile, inFileName, nSeeds, variables, svs, draws, contents, i);
      if r.Fail? {
        return;
      }
      i := i + 1;
    }
    r := Pass;
  }

  /** One round of the loop of `CreateInFiles`: seed `i` receives its in-file. */
  method FillSlot(fs: FileSystem, ghost files0: map<Path, seq<string>>, outpath: Path, parentInfile: Path,
                  inFileName: string, nSeeds: nat, variables: Option<map<string, string>>, svs: seq<string>,
                  draws: seq<seq<nat>>, ghost contents: seq<seq<string>>, i: nat)
    returns (r: Outcome<JobError>)
    requires fs.Valid() && i < nSeeds
    requires inFileName != "" && |inFileName| > |Basename(parentInfile)|
    requires |draws| == nSeeds && forall k :: 0 <= k < nSeeds ==> |svs| <= |draws[k]|
    requires contents == ParentContents(files0, parentInfile, variables, svs, draws)
    requires i > 0 ==> InFileCheck(fs.dirs, files0, parentInfile, SeedPath(outpath, 0), variables, svs) == Pass
    requires fs.files == JobFiles(files0, outpath, inFileName, contents, i)
    requires var m := JobFiles(files0, outpath, inFileName, contents, i);
      var inPath := SeedInFile(outpath, i, inFileName);
      var target := Child(SeedPath(outpath, i), Basename(parentInfile));
      && SeedPath(outpath, i) in fs.dirs
      && Within(inPath, outpath) && inPath !in m && inPath !in fs.dirs
      && Within(target, outpath) && target !in m && (Basename(parentInfile) != "" ==> target !in fs.dirs)
    requires var m := JobFiles(files0, outpath, inFileName, contents, i);
      && InFileCheck(fs.dirs, m, parentInfile, SeedPath(outpath, i), variables, svs)
         == InFileCheck(fs.dirs, files0, parentInfile, SeedPath(outpath, 0), variables, svs)
      && (parentInfile in m ==> parentInfile in files0 && m[parentInfile] == files0[parentInfile])
    modifies fs
    ensures fs.Valid() && fs.dirs == old(fs.dirs)
    ensures r == InFileCheck(fs.dirs, files0, parentInfile, SeedPath(outpath, 0), variables, svs)
    ensures r.Pass? ==> fs.files == JobFiles(files0, outpath, inFileName, contents, i + 1)
    ensures r.Fail? ==> i == 0 && SameOutside(files0, fs.files, outpath)
  {
    ghost var inPath := SeedInFile(outpath, i, inFileName);
    assert inPath == Child(SeedPath(outpath, i), inFileName);
    ghost var before := fs.files;
    r := FillSeed(fs, parentInfile, SeedPath(outpath, i), inFileName, variables, svs, draws[i]);
    if r.Pass? {
      ghost var lines := files0[parentInfile];
      assert before[parentInfile] == lines;
      assert fs.files == before[inPath := SeededLines(lines, ParseLines(lines).value, variables, svs, draws[i])];
      SlotFilled(files0, outpath, parentInfile, inFileName, variables, svs, draws, contents, i, fs.files);
    } else {
      assert SameOutside(files0, fs.files, outpath) by {
        assert Within(inPath, outpath) && Within(Child(SeedPath(outpath, i), Basename(parentInfile)), outpath);
      }
    }
  }

  /** What `FillSeed` leaves on success is the next step of `JobFiles`. */
  lemma SlotFilled(files0: map<Path, seq<string>>, outpath: Path, parentInfile: Path, inFileName: string,
                   variables: Option<map<string, string>>, svs: seq<string>, draws: seq<seq<nat>>,
                   contents: seq<seq<string>>, i: nat, after: map<Path, seq<string>>)
    requires forall k :: 0 <= k < |draws| ==> |svs| <= |draws[k]|
    requires contents == ParentContents(files0, parentInfile, variables, svs, draws) && i < |contents|
    requires parentInfile in files0 && ParseLines(files0[parentInfile]).Ok?
    requires var lines := files0[parentInfile];
      after == JobFiles(files0, outpath, inFileName, contents, i)
               [SeedInFile(outpath, i, inFileName) := SeededLines(lines, ParseLines(lines).value, variables, svs, draws[i])]
    ensures after == JobFiles(files0, outpath, inFileName, contents, i + 1)
  {
    JobFilesStep(files0, outpath, inFileName, contents, i);
  }

  /** Seed `i` meets the same in-file as seed 0 did. */
  lemma SlotCheck(dirs: set<Path>, files0: map<Path, seq<string>>, outpath: Path, parentInfile: Path,
                  inFileName: string, nSeeds: nat, variables: Option<map<string, string>>, svs: seq<string>,
                  contents: seq<seq<string>>, i: nat)
    requires FreshTree(dirs, files0, outpath, nSeeds) && i < nSeeds && |contents| == nSeeds && inFileName != ""
    requires i > 0 ==> InFileCheck(dirs, files0, parentInfile, SeedPath(outpath, 0), variables, svs) == Pass
    ensures var m := JobFiles(files0, outpath, inFileName, contents, i);
      && InFileCheck(dirs, m, parentInfile, SeedPath(outpath, i), variables, svs)
         == InFileCheck(dirs, files0, parentInfile, SeedPath(outpath, 0), variables, svs)
      && (parentInfile in m ==> parentInfile in files0 && m[parentInfile] == files0[parentInfile])
  {
    var m := JobFiles(files0, outpath, inFileName, contents, i);
    if i > 0 {
      assert !Within(parentInfile, outpath);
      forall j | 0 <= j < i
        ensures parentInfile != SeedInFile(outpath, j, inFileName)
      {
        assert Within(SeedInFile(outpath, j, inFileName), outpath);
      }
      JobFilesElsewhere(files0, outpath, inFileName, contents, i, parentInfile);
      assert parentInfile in m && m[parentInfile] == files0[parentInfile];
      assert Basename(parentInfile) != "";
      assert InFileCheck(dirs, m, parentInfile, SeedPath(outpath, i), variables, svs) == SeedCheck(variables, svs);
    }
  }

  /** `CreateSeedInFile` on a seed folder that holds nothing yet. */
  method FillSeed(fs: FileSystem, parentInfile: Path, seedOut: Path, inFileName: string,
                  variables: Option<map<string, string>>, svs: seq<string>, draws: seq<nat>)
    returns (r: Outcome<JobError>)
    requires fs.Valid() && seedOut in fs.dirs
    requires inFileName != "" && inFileName != Basename(parentInfile)
    requires |svs| <= |draws|
    requires Child(seedOut, inFileName) !in fs.files && Child(seedOut, inFileName) !in fs.dirs
    requires Child(seedOut, Basename(parentInfile)) !in fs.files
    requires Basename(parentInfile) != "" ==> Child(seedOut, Basename(parentInfile)) !in fs.dirs
    modifies fs
    ensures fs.Valid() && fs.dirs == old(fs.dirs)
    ensures r == InFileCheck(old(fs.dirs), old(fs.files), parentInfile, seedOut, variables, svs)
    ensures r.Pass? ==>
      var lines := old(fs.files)[parentInfile];
      fs.files == old(fs.files)[Child(seedOut, inFileName) := SeededLines(lines, ParseLines(lines).value, variables, svs, draws)]
    ensures r.Fail? ==> forall p :: p != Child(seedOut, inFileName) && p != Child(seedOut, Basename(parentInfile)) ==>
      (p in fs.files <==> p in old(fs.files)) && (p in fs.files ==> fs.files[p] == old(fs.files)[p])
  {
    ghost var before := fs.files;
    ghost var target := Child(seedOut, Basename(parentInfile));
    assert before - {target} == before;
    r := CreateSeedInFile(fs, parentInfile, seedOut, inFileName, variables, svs, draws);
  }

  /** A LAMMPS job: where its folder is, how its in-file is named, and what
      it was created with. Nothing changes after creation. */
  class LammpsJob {
    const parentOutpath: Path
    const parentInfile: Path
    const name: string
    const nSeeds: nat
    const seedVariables: seq<string>
    const variables: Option<map<string, string>>
    const outpath: Path
    const inFileName: string

    /** The fields a job made from these arguments holds. */
    predicate Holds(parentOutpath: Path, parentInfile: Path, name: string, nSeeds: nat,
                    seedVariables: seq<string>, variables: Option<map<string, string>>)
    {
      && this.parentOutpath == parentOutpath && this.parentInfile == parentInfile && this.name == name
      && this.nSeeds == nSeeds && this.seedVariables == seedVariables && this.variables == variables
      && outpath == Child(parentOutpath, name) && inFileName == InFileName(parentInfile, name)
    }

    constructor (parentOutpath: Path, parentInfile: Path, name: string, nSeeds: nat,
                 seedVariables: seq<string>, variables: Option<map<string, string>>)
      ensures Holds(parentOutpath, parentInfile, name, nSeeds, seedVariables, variables)
    {
      this.parentOutpath := parentOutpath;
      this.parentInfile := parentInfile;
      this.name := name;
      this.nSeeds := nSeeds;
      this.seedVariables := seedVariables;
      this.variables := variables;
      outpath := Child(parentOutpath, name);
      inFileName := InFileName(parentInfile, name);
    }

    /** `run(lammps_env_var, seed_num)`: runs LAMMPS on the in-file of the
        seed and returns the exit status unchanged. */
    method Run(lammpsCmd: string, seed: nat, exec: string -> int) returns (status: int)
      ensures status == exec(Command(lammpsCmd, SeedInFile(outpath, seed, inFileName)))
    {
      var inPath := Child(Child(outpath, SeedDir(seed)), inFileName);
      status := exec(Command(lammpsCmd, inPath));
    }
  }

  /** Whether `LAMMPS_Job(...)` raises, and with what. */
  ghost function CreateCheck(dirs: set<Path>, files: map<Path, seq<string>>, parentOutpath: Path, parentInfile: Path, name: string,
                       nSeeds: nat, variables: Option<map<string, string>>, svs: seq<string>): Outcome<JobError>
  {
    var outpath := Child(parentOutpath, name);
    if outpath in dirs || outpath in files then Fail(FolderExists(outpath))
    else if nSeeds == 0 then Pass
    else if Blocked(files, outpath) then Fail(FsFailed(NotADirectory(SeedPath(outpath, 0))))
    else InFileCheck(dirs + SeedTree(outpath, nSeeds), files, parentInfile, SeedPath(outpath, 0), variables, svs)
  }

  /** What `LAMMPS_Job(...)` leaves in the file system, from `dirs0`/`files0`
      to `dirs`/`files`. When it succeeds: exactly the seed folders (with any
      missing folder above them) and, for every seed, its edited in-file. When
      it raises because the job folder exists: nothing changes. When it raises
      later: no file outside the job folder changes, and the only folders
      added are seed folders and their missing ancestors. */
  ghost predicate CreateEffect(dirs0: set<Path>, files0: map<Path, seq<string>>, dirs: set<Path>, files: map<Path, seq<string>>,
                               parentOutpath: Path, parentInfile: Path, name: string, nSeeds: nat,
                               variables: Option<map<string, string>>, svs: seq<string>, draws: seq<seq<nat>>, ok: bool)
    requires Draws(draws, nSeeds, |svs|)
  {
    var outpath := Child(parentOutpath, name);
    if ok then
      && dirs == dirs0 + SeedTree(outpath, nSeeds)
      && files == (if nSeeds == 0 then files0
                   else JobFiles(files0, outpath, InFileName(parentInfile, name),
                                 ParentContents(files0, parentInfile, variables, svs, draws), nSeeds))
    else if outpath in dirs0 || outpath in files0 then dirs == dirs0 && files == files0
    else dirs0 <= dirs <= dirs0 + SeedTree(outpath, nSeeds) && SameOutside(files0, files, outpath)
  }

  /** `LAMMPS_Job(parent, name, n_seeds, seed_variables, variables)`: makes the
      job folder and its seed folders, then the in-file of every seed;
      `draws[i][j]` is the random value seed `i` gives seed variable `j`. */
  method Create(fs: FileSystem, parentOutpath: Path, parentInfile: Path, name: string, nSeeds: nat,
                seedVariables: seq<string>, variables: Option<map<string, string>>, draws: seq<seq<nat>>)
    returns (r: Result<LammpsJob, JobError>)
    requires fs.Valid() && Draws(draws, nSeeds, |seedVariables|)
    modifies fs
    ensures fs.Valid()
    ensures var check := CreateCheck(old(fs.dirs), old(fs.files), parentOutpath, parentInfile, name, nSeeds, variables, seedVariables);
      && (check.Fail? ==> r == Err(check.error))
      && (check.Pass? ==> r.Ok? && fresh(r.value) && r.value.Holds(parentOutpath, parentInfile, name, nSeeds, seedVariables, variables))
    ensures CreateEffect(old(fs.dirs), old(fs.files), fs.dirs, fs.files, parentOutpath, parentInfile, name, nSeeds,
                         variables, seedVariables, draws, r.Ok?)
  {
    var outpath := Child(parentOutpath, name);
    if fs.Exists(outpath) {
      return Err(FolderExists(outpath));
    }
    ghost var dirs0, files0 := fs.dirs, fs.files;
    VacantMissing(fs, outpath);
    var made := CreateSeedDirs(fs, outpath, nSeeds);
    if made.Fail? {
      return Err(made.error);
    }
    var inFileName := InFileName(parentInfile, name);
    if nSeeds > 0 {
      FreshTreeMade(dirs0, files0, outpath, nSeeds);
      var filled := CreateInFiles(fs, outpath, parentInfile, inFileName, nSeeds, variables, seedVariables, draws);
      if filled.Fail? {
        return Err(filled.error);
      }
    }
    var job := new LammpsJob(parentOutpath, parentInfile, name, nSeeds, seedVariables, variables);
    r := Ok(job);
  }
}
