/** The sweep script (myscripts/scripts/lammps_param_sweep.py): `setup` makes a
    project and one job per row of the parameter-combination table, and `run`
    runs the named jobs in batches of `ncores // np`, one batch after another. */
module ParamSweep {
  import opened Results
  import opened Seqs
  import opened Text
  import opened FileSystems
  import opened Jobs
  import opened Batching
  import opened Projects
  import InFiles

  /** The job name of `setup`: every column label followed by its position. */
  function ColumnsName(columns: seq<string>): string
  {
    if columns == [] then ""
    else ColumnsName(columns[..|columns| - 1]) + columns[|columns| - 1] + NatToString(|columns| - 1)
  }

  /** `f"{col}{i}"` for each column. */
  function Labels(columns: seq<string>): (r: seq<string>)
    ensures |r| == |columns| && forall i :: 0 <= i < |columns| ==> r[i] == columns[i] + NatToString(i)
  {
    seq(|columns|, i requires 0 <= i < |columns| => columns[i] + NatToString(i))
  }

  /** The name is the labels of the columns written one after another, so it
      depends on the column labels alone and on no value of the row. */
  lemma {:induction false} ColumnsNameLabels(columns: seq<string>)
    ensures ColumnsName(columns) == Concat(Labels(columns))
    decreases |columns|
  {
    if columns != [] {
      var n := |columns| - 1;
      ColumnsNameLabels(columns[..n]);
      assert Labels(columns) == Labels(columns[..n]) + [columns[n] + NatToString(n)];
      ConcatAppend(Labels(columns[..n]), columns[n] + NatToString(n));
    }
  }

  /** The `job_name +=` loop. */
  method JobName(columns: seq<string>) returns (name: string)
    ensures name == ColumnsName(columns)
  {
    name := "";
    for i := 0 to |columns|
      invariant name == ColumnsName(columns[..i])
    {
      PrefixStep(columns, i);
      assert columns[..i + 1][..i] == columns[..i];
      name := name + columns[i] + NatToString(i);
    }
    assert columns[..|columns|] == columns;
  }

  /** `setup`: a project under `basePath`, then for every row of the table a
      job named after the columns, with `n_runs` seeds, the seed variables and
      every column set to the row's value. `draws[i]` are the random seed
      values the job of row `i` would receive. As every row gets the same
      name, only the first row makes a job; the later ones find it present.
      The project raises as `ProjectCheck` says; after it, the first row's
      job raises exactly as `CreateCheck` says on the file system the project
      left, and the file system ends as `CreateEffect` says. */
  method Setup(fs: FileSystem, infilePath: Path, basePath: Path, projectName: string, columns: seq<string>,
               rows: seq<seq<string>>, nRuns: nat, seedVarNames: seq<string>, draws: seq<seq<seq<nat>>>)
    returns (r: Result<(LocalProject, seq<string>), ProjectError>)
    requires fs.Valid()
    requires forall i :: 0 <= i < |rows| ==> |rows[i]| == |columns|
    requires |draws| == |rows| && forall i :: 0 <= i < |rows| ==> Draws(draws[i], nRuns, |seedVarNames|)
    modifies fs
    ensures fs.Valid()
    ensures var check := ProjectCheck(old(fs.dirs), old(fs.files), projectName, infilePath, basePath, false);
      check.Fail? ==>
        && r == Err(check.error)
        && fs.dirs == ProjectDirs(old(fs.dirs), old(fs.files), basePath, projectName)
        && fs.files == ProjectFiles(old(fs.dirs), old(fs.files), basePath, projectName, infilePath)
    ensures var check := ProjectCheck(old(fs.dirs), old(fs.files), projectName, infilePath, basePath, false);
      var dirs1 := ProjectDirs(old(fs.dirs), old(fs.files), basePath, projectName);
      var files1 := ProjectFiles(old(fs.dirs), old(fs.files), basePath, projectName, infilePath);
      check.Pass? && |rows| == 0 ==> r.Ok? && fs.dirs == dirs1 && fs.files == files1
    ensures var check := ProjectCheck(old(fs.dirs), old(fs.files), projectName, infilePath, basePath, false);
      check.Pass? && |rows| > 0 ==>
        var dirs1 := ProjectDirs(old(fs.dirs), old(fs.files), basePath, projectName);
        var files1 := ProjectFiles(old(fs.dirs), old(fs.files), basePath, projectName, infilePath);
        var outpath := Child(basePath, projectName);
        var infile1 := Child(outpath, Basename(infilePath));
        var n := Strip(ColumnsName(columns));
        var vars := Some(JobVariables(FileVariables(old(fs.files), infilePath), Some(ToMap(columns, rows[0]))));
        var job := Jobs.CreateCheck(dirs1, files1, outpath, infile1, n, nRuns, vars, seedVarNames);
        && (job.Fail? ==> r == Err(JobRejected(job.error)))
        && (job.Pass? ==> r.Ok?)
        && CreateEffect(dirs1, files1, fs.dirs, fs.files, outpath, infile1, n, nRuns, vars, seedVarNames, draws[0], r.Ok?)
    ensures r.Ok? ==>
      var project, names := r.value.0, r.value.1;
      && fresh(project) && project.Valid() && !project.onlyMakePlots
      && project.name == projectName && project.basepath == basePath
      && project.outpath == Child(basePath, projectName)
      && project.infilePath == Child(project.outpath, Basename(infilePath))
      && project.inFile.freeVariables == FileVariables(old(fs.files), infilePath)
      && |names| == |rows| && (forall k :: 0 <= k < |names| ==> names[k] == ColumnsName(columns))
      && (|rows| == 0 ==> project.jobOrder == [])
      && (|rows| > 0 ==>
            var n := Strip(ColumnsName(columns));
            && project.jobOrder == [n] && n in project.jobs
            && project.jobs[n].Holds(project.outpath, project.infilePath, n, nRuns, seedVarNames,
                                     Some(JobVariables(project.inFile.freeVariables, Some(ToMap(columns, rows[0]))))))
  {
    ghost var dirs0, files0 := fs.dirs, fs.files;
    var made := CreateProject(fs, projectName, infilePath, basePath, false);
    if made.Err? {
      return Err(made.error);
    }
    var project := made.value;
    assert ProjectCheck(dirs0, files0, projectName, infilePath, basePath, false).Pass?;
    ProjectTable(dirs0, files0, fs.files, projectName, infilePath, basePath, project.infilePath, project.inFile.Table());
    var added := AddRows(fs, project, columns, rows, nRuns, seedVarNames, draws);
    if added.Err? {
      return Err(added.error);
    }
    r := Ok((project, added.value));
  }

  /** The free variables of the in-file at `path`, when it parses. */
  ghost function FileVariables(files: map<Path, seq<string>>, path: Path): map<string, string>
  {
    if path in files && InFiles.ParseLines(files[path]).Ok? then InFiles.ParseLines(files[path]).value.values else map[]
  }

  /** After the project is made, its in-file copy holds the free variables
      of the in-file it was copied from. */
  lemma ProjectTable(dirs0: set<Path>, files0: map<Path, seq<string>>, files: map<Path, seq<string>>, projectName: string,
                     infilePath: Path, basePath: Path, copy: Path, table: InFiles.VarTable)
    requires ProjectCheck(dirs0, files0, projectName, infilePath, basePath, false).Pass?
    requires files == ProjectFiles(dirs0, files0, basePath, projectName, infilePath)
    requires copy == Child(Child(basePath, projectName), Basename(infilePath))
    requires copy in files && InFiles.ParseLines(files[copy]) == Ok(table)
    ensures FileVariables(files0, infilePath) == table.values
  {
    var outpath := Child(basePath, projectName);
    assert FolderCheck(dirs0, files0, basePath, outpath, infilePath).Pass?;
    assert files[copy] == files0[infilePath];
  }

  /** The loop of `setup` over the rows of the table, on a project without
      jobs: the first row's `new_job` decides the outcome and the file system;
      every later row finds its name present and changes nothing. */
  method AddRows(fs: FileSystem, project: LocalProject, columns: seq<string>, rows: seq<seq<string>>, nRuns: nat,
                 seedVarNames: seq<string>, draws: seq<seq<seq<nat>>>) returns (r: Result<seq<string>, ProjectError>)
    requires fs.Valid() && project.Valid() && project.jobOrder == []
    requires forall i :: 0 <= i < |rows| ==> |rows[i]| == |columns|
    requires |draws| == |rows| && forall i :: 0 <= i < |rows| ==> Draws(draws[i], nRuns, |seedVarNames|)
    modifies fs, project
    ensures fs.Valid() && project.Valid()
    ensures |rows| == 0 ==> r.Ok? && project.jobOrder == [] && fs.dirs == old(fs.dirs) && fs.files == old(fs.files)
    ensures |rows| > 0 ==>
      var n := Strip(ColumnsName(columns));
      var vars := Some(JobVariables(old(project.inFile.freeVariables), Some(ToMap(columns, rows[0]))));
      var check := Jobs.CreateCheck(old(fs.dirs), old(fs.files), project.outpath, project.infilePath, n, nRuns, vars, seedVarNames);
      && (check.Fail? ==> r == Err(JobRejected(check.error)) && project.jobOrder == [])
      && (check.Pass? ==>
            && r.Ok? && project.jobOrder == [n] && n in project.jobs
            && project.jobs[n].Holds(project.outpath, project.infilePath, n, nRuns, seedVarNames, vars))
      && CreateEffect(old(fs.dirs), old(fs.files), fs.dirs, fs.files, project.outpath, project.infilePath, n, nRuns,
                      vars, seedVarNames, draws[0], r.Ok?)
    ensures r.Ok? ==>
      |r.value| == |rows| && forall k :: 0 <= k < |rows| ==> r.value[k] == ColumnsName(columns)
  {
    ghost var free := project.inFile.freeVariables;
    ghost var dirs0, files0 := fs.dirs, fs.files;
    ghost var cn := ColumnsName(columns);
    ghost var n := Strip(cn);
    ghost var vars := if |rows| > 0 then Some(JobVariables(free, Some(ToMap(columns, rows[0])))) else None;
    // the file system the first row's job leaves
    ghost var dirs1, files1 := dirs0, files0;
    var names := [];
    for i := 0 to |rows|
      invariant fs.Valid() && project.Valid() && project.inFile.freeVariables == free
      invariant |names| == i && forall k :: 0 <= k < i ==> names[k] == cn
      invariant i == 0 ==> project.jobOrder == [] && fs.dirs == dirs0 && fs.files == files0
      invariant i > 0 ==>
        && Jobs.CreateCheck(dirs0, files0, project.outpath, project.infilePath, n, nRuns, vars, seedVarNames).Pass?
        && project.jobOrder == [n] && n in project.jobs
        && project.jobs[n].Holds(project.outpath, project.infilePath, n, nRuns, seedVarNames, vars)
        && fs.dirs == dirs1 && fs.files == files1
        && CreateEffect(dirs0, files0, dirs1, files1, project.outpath, project.infilePath, n, nRuns,
                        vars, seedVarNames, draws[0], true)
    {
      var name, added := AddRow(fs, project, columns, rows[i], nRuns, seedVarNames, draws[i]);
      names := names + [name];
      if added.Fail? {
        return Err(added.error);
      }
      if i == 0 {
        dirs1, files1 := fs.dirs, fs.files;
      }
    }
    r := Ok(names);
  }

  /** One pass of `setup`'s row loop: the job name built from the columns,
      then `project.new_job(job_name, n_runs, seed_var_names, data)` with the
      row's values as `data`. A present name changes nothing; otherwise the
      job is made and registered exactly when `CreateCheck` passes, and the
      file system changes as `CreateEffect` says. */
  method AddRow(fs: FileSystem, project: LocalProject, columns: seq<string>, row: seq<string>, nRuns: nat,
                seedVarNames: seq<string>, draws: seq<seq<nat>>) returns (name: string, r: Outcome<ProjectError>)
    requires fs.Valid() && project.Valid() && |row| == |columns| && Draws(draws, nRuns, |seedVarNames|)
    modifies fs, project
    ensures fs.Valid() && project.Valid() && name == ColumnsName(columns)
    ensures Strip(ColumnsName(columns)) in old(project.jobs) ==>
      && r == Pass && project.jobs == old(project.jobs) && project.jobOrder == old(project.jobOrder)
      && fs.dirs == old(fs.dirs) && fs.files == old(fs.files)
    ensures var n := Strip(ColumnsName(columns));
      var vars := Some(JobVariables(project.inFile.freeVariables, Some(ToMap(columns, row))));
      var check := Jobs.CreateCheck(old(fs.dirs), old(fs.files), project.outpath, project.infilePath, n, nRuns, vars, seedVarNames);
      n !in old(project.jobs) ==>
        && (check.Fail? ==> r == Fail(JobRejected(check.error)) && project.jobs == old(project.jobs)
                            && project.jobOrder == old(project.jobOrder))
        && (check.Pass? ==>
              && r == Pass && project.jobOrder == old(project.jobOrder) + [n]
              && n in project.jobs && project.jobs == old(project.jobs)[n := project.jobs[n]] && fresh(project.jobs[n])
              && project.jobs[n].Holds(project.outpath, project.infilePath, n, nRuns, seedVarNames, vars))
        && CreateEffect(old(fs.dirs), old(fs.files), fs.dirs, fs.files, project.outpath, project.infilePath, n, nRuns,
                        vars, seedVarNames, draws, r.Pass?)
  {
    name := JobName(columns);
    var data := ToMap(columns, row);
    r := project.NewJob(fs, name, nRuns, seedVarNames, Some(data), draws);
  }

  /** The outcome of running the named jobs one after another with
      `run_job_serial`: the first error stops the rest. */
  function RunNames(project: LocalProject, names: seq<string>, cmd: string, exec: string -> int)
    : Result<seq<seq<int>>, ProjectError>
    reads project
  {
    if names == [] then Ok([])
    else
      var prev := RunNames(project, names[..|names| - 1], cmd, exec);
      if prev.Err? then prev
      else match project.SerialRun(names[|names| - 1], cmd, exec)
        case Err(e) => Err(e)
        case Ok(s) => Ok(prev.value + [s])
  }

  lemma RunNamesAppend(project: LocalProject, names: seq<string>, name: string, cmd: string, exec: string -> int)
    ensures var prev := RunNames(project, names, cmd, exec);
      RunNames(project, names + [name], cmd, exec) ==
        if prev.Err? then prev
        else match project.SerialRun(name, cmd, exec)
          case Err(e) => Err(e)
          case Ok(s) => Ok(prev.value + [s])
  {
    assert (names + [name])[..|names|] == names;
  }

  /** Once a job has failed, running more names changes nothing. */
  lemma {:induction false} RunNamesStopped(project: LocalProject, names: seq<string>, more: seq<string>, cmd: string, exec: string -> int)
    requires RunNames(project, names, cmd, exec).Err?
    ensures RunNames(project, names + more, cmd, exec) == RunNames(project, names, cmd, exec)
    decreases |more|
  {
    if more != [] {
      var n := |more| - 1;
      RunNamesStopped(project, names, more[..n], cmd, exec);
      assert names + more == (names + more[..n]) + [more[n]];
      RunNamesAppend(project, names + more[..n], more[n], cmd, exec);
    } else {
      assert names + more == names;
    }
  }

  /** With every name known, every job runs: the statuses of name `k` are
      those of its seeds in ascending order. */
  lemma {:induction false} RunNamesOk(project: LocalProject, names: seq<string>, cmd: string, exec: string -> int)
    requires !project.onlyMakePlots && forall k :: 0 <= k < |names| ==> names[k] in project.jobs
    ensures var r := RunNames(project, names, cmd, exec);
      && r.Ok? && |r.value| == |names|
      && forall k :: 0 <= k < |names| ==>
           r.value[k] == Map(RunUnit(cmd, exec), SeedUnits(project.jobs[names[k]], project.jobs[names[k]].nSeeds))
  {
    if names != [] {
      RunNamesOk(project, names[..|names| - 1], cmd, exec);
    }
  }

  /** The first unknown name stops the run with a `KeyError` naming it. */
  lemma {:induction false} RunNamesUnknown(project: LocalProject, names: seq<string>, i: nat, cmd: string, exec: string -> int)
    requires !project.onlyMakePlots && i < |names| && names[i] !in project.jobs
    requires forall k :: 0 <= k < i ==> names[k] in project.jobs
    ensures RunNames(project, names, cmd, exec) == Err(NoJob(names[i]))
  {
    var head := names[..i + 1];
    assert head[..i] == names[..i];
    RunNamesOk(project, names[..i], cmd, exec);
    assert RunNames(project, head, cmd, exec) == Err(NoJob(names[i]));
    RunNamesStopped(project, head, names[i + 1..], cmd, exec);
    assert head + names[i + 1..] == names;
  }

  /** A project that only makes plots refuses to run any job. */
  lemma {:induction false} RunNamesPlotsOnly(project: LocalProject, names: seq<string>, cmd: string, exec: string -> int)
    requires project.onlyMakePlots && names != []
    ensures RunNames(project, names, cmd, exec) == Err(OnlyMakePlots)
  {
    var head := names[..1];
    assert RunNames(project, head[..0], cmd, exec) == Ok([]);
    RunNamesStopped(project, head, names[1..], cmd, exec);
    assert head + names[1..] == names;
  }

  /** One more name of a batch: its statuses are added, or its error ends
      the whole batch. */
  lemma RunNamesNext(project: LocalProject, done: seq<string>, batch: seq<string>, j: nat,
                     statuses: seq<seq<int>>, cmd: string, exec: string -> int)
    requires j < |batch| && RunNames(project, done + batch[..j], cmd, exec) == Ok(statuses)
    ensures var s := project.SerialRun(batch[j], cmd, exec);
      && (s.Ok? ==> RunNames(project, done + batch[..j + 1], cmd, exec) == Ok(statuses + [s.value]))
      && (s.Err? ==> RunNames(project, done + batch, cmd, exec) == Err(s.error))
  {
    AppendStep(done, batch, j);
    RunNamesAppend(project, done + batch[..j], batch[j], cmd, exec);
    if project.SerialRun(batch[j], cmd, exec).Err? {
      AppendSplit(done, batch, j + 1);
      RunNamesStopped(project, done + batch[..j + 1], batch[j + 1..], cmd, exec);
    }
  }

  /** `run`: the names in batches of `ncores // np`, each batch after the one
      before, every job with `run_job_serial` under `mpirun -np {np}`. */
  method Run(project: LocalProject, jobNames: seq<string>, np: int, ncores: int, lmpCommand: string, exec: string -> int)
    returns (r: Result<seq<seq<int>>, ProjectError>)
    ensures var mp := MaxParallel(ncores, np);
      && (mp.Err? ==> r == Err(BatchRejected(ZeroDivision)))
      && (mp.Ok? && mp.value == 0 ==> r == Err(BatchRejected(ZeroBatchSize)))
      && (mp.Ok? && mp.value > 0 ==> r == RunNames(project, jobNames, MpiCommand(np, lmpCommand), exec))
      && (mp.Ok? && mp.value < 0 ==> r == Ok([]))
  {
    var mp := MaxParallel(ncores, np);
    if mp.Err? {
      return Err(BatchRejected(mp.error));
    }
    var cmd := MpiCommand(np, lmpCommand);
    var batches := Batches(jobNames, mp.value);
    if batches.Err? {
      return Err(BatchRejected(batches.error));
    }
    BatchesCover(jobNames, mp.value);
    r := RunBatches(project, batches.value, cmd, exec);
  }

  /** The batches in order; a job that raises stops everything after it. */
  method RunBatches(project: LocalProject, batches: seq<seq<string>>, cmd: string, exec: string -> int)
    returns (r: Result<seq<seq<int>>, ProjectError>)
    ensures r == RunNames(project, Concat(batches), cmd, exec)
  {
    var acc := [];
    for i := 0 to |batches|
      invariant RunNames(project, Concat(batches[..i]), cmd, exec) == Ok(acc)
    {
      ghost var done := Concat(batches[..i]);
      var step := RunBatch(project, batches[i], cmd, exec, done, acc);
      assert batches[..i + 1] == batches[..i] + [batches[i]];
      ConcatAppend(batches[..i], batches[i]);
      if step.Err? {
        assert batches == batches[..i + 1] + batches[i + 1..];
        ConcatSplit(batches[..i + 1], batches[i + 1..]);
        RunNamesStopped(project, Concat(batches[..i + 1]), Concat(batches[i + 1..]), cmd, exec);
        return step;
      }
      acc := step.value;
    }
    assert batches[..|batches|] == batches;
    r := Ok(acc);
  }

  /** One batch, name by name, after the names in `done` gave `acc`. */
  method RunBatch(project: LocalProject, batch: seq<string>, cmd: string, exec: string -> int,
                  ghost done: seq<string>, acc: seq<seq<int>>)
    returns (r: Result<seq<seq<int>>, ProjectError>)
    requires RunNames(project, done, cmd, exec) == Ok(acc)
    ensures r == RunNames(project, done + batch, cmd, exec)
  {
    var statuses := acc;
    assert done + batch[..0] == done;
    for j := 0 to |batch|
      invariant RunNames(project, done + batch[..j], cmd, exec) == Ok(statuses)
    {
      var s := project.RunJobSerial(batch[j], cmd, exec);
      RunNamesNext(project, done, batch, j, statuses, cmd, exec);
      if s.Err? {
        return Err(s.error);
      }
      statuses := statuses + [s.value];
    }
    assert batch[..|batch|] == batch;
    r := Ok(statuses);
  }
}
